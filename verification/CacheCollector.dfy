/**
 * Models `Cache::prune`, `Cache::remove` and `Cache::clear` in crates/uv-cache/src/lib.rs, and
 * `CacheBucket::remove`, which selects the entries of one package.
 */
module CacheCollector {
  import opened FileSystem
  import opened Removal
  import opened CacheLayout
  import opened CacheEntries
  import opened CacheStages

  // ---------------------------------------------------------------------------------------------
  // The garbage collector

  /** There is a cache, with a bucket to unzip if that is wanted, and every directory to be removed can be. */
  ghost predicate CanPrune(nodes: Nodes, ci: bool) {
    && IsDirectory(nodes, []) && (ci ==> IsDirectory(nodes, ["sdists-v9"]))
    && CanGo(nodes, Pruned(nodes, ci))
  }

  method Prune(fs: FileSystem, ci: bool, summary: Removal, ghost published: set<Path>, ghost good: bool)
    returns (ok: bool)
    requires Keeps(fs.nodes, published, good)
    modifies fs, summary
    ensures Keeps(fs.nodes, published, good)
    ensures ok ==> fs.nodes == Pruned(old(fs.nodes), ci) && WasPruned(old(fs.nodes), fs.nodes, ci)
    ensures SucceedsIf(CanPrune(old(fs.nodes), ci), ok, old(fs.failed), fs.failed)
    ensures fs.nodes.Keys <= old(fs.nodes).Keys
    ensures ok ==> summary.Total(fs.nodes) == old(summary.Total(fs.nodes))
    ensures old(fs.trace) <= fs.trace && (good ==> AllGood(fs.trace, |old(fs.trace)|, published))
  {
    if !IsDirectory(fs.nodes, []) {
      return false;
    }
    StagesSucceed(fs.nodes, ci);
    StagesAgree(fs.nodes, ci);
    ok := RunStages(fs, ci, summary, published, good);
  }

  /** The stages one after the other. */
  method RunStages(fs: FileSystem, ci: bool, summary: Removal, ghost published: set<Path>, ghost good: bool)
    returns (ok: bool)
    requires Keeps(fs.nodes, published, good)
    modifies fs, summary
    ensures Keeps(fs.nodes, published, good)
    ensures ok ==> fs.nodes == Pruned(old(fs.nodes), ci)
    ensures SucceedsIf(StagesCan(old(fs.nodes), ci), ok, old(fs.failed), fs.failed)
    ensures fs.nodes.Keys <= old(fs.nodes).Keys
    ensures ok ==> summary.Total(fs.nodes) == old(summary.Total(fs.nodes))
    ensures old(fs.trace) <= fs.trace && (good ==> AllGood(fs.trace, |old(fs.trace)|, published))
  {
    ghost var before := fs.nodes;
    ok := Tidy(fs, summary, published, good);
    if ok {
      ok := UnzipIf(fs, ci, summary, published, good, before);
      if ok {
        ok := CollectArchives(fs, summary, published, good);
      }
    }
  }

  method UnzipIf(fs: FileSystem, ci: bool, summary: Removal, ghost published: set<Path>, ghost good: bool,
                 ghost before: Nodes)
    returns (ok: bool)
    requires Keeps(fs.nodes, published, good) && fs.nodes == Tidied(before)
    modifies fs, summary
    ensures Keeps(fs.nodes, published, good)
    ensures ok ==> fs.nodes == Unzipped(before, ci)
    ensures SucceedsIf(UnzippingCan(before, ci), ok, old(fs.failed), fs.failed)
    ensures fs.nodes.Keys <= old(fs.nodes).Keys
    ensures ok ==> summary.Total(fs.nodes) == old(summary.Total(fs.nodes))
    ensures old(fs.trace) <= fs.trace && (good ==> AllGood(fs.trace, |old(fs.trace)|, published))
  {
    if !ci {
      return true;
    }
    ok := Unzip(fs, summary, published, good);
  }

  ghost predicate UnzippingCan(nodes: Nodes, ci: bool) {
    ci ==> [SDISTS] in Tidied(nodes) && CanGo(Tidied(nodes), Unzipped(nodes, ci))
  }

  /** Each of the stages can succeed. */
  ghost predicate StagesCan(nodes: Nodes, ci: bool) {
    CanGo(nodes, Tidied(nodes)) && UnzippingCan(nodes, ci) && CanGo(Unzipped(nodes, ci), Pruned(nodes, ci))
  }

  /** Pruning can succeed exactly if each of its stages can. */
  lemma {:induction false} StagesSucceed(nodes: Nodes, ci: bool)
    requires IsDirectory(nodes, [])
    ensures StagesCan(nodes, ci) <==> CanPrune(nodes, ci)
  {
    var tidy, unzipped, after := Tidied(nodes), Unzipped(nodes, ci), Pruned(nodes, ci);
    StagesShrink(nodes, ci);
    CanGoVia(nodes, tidy, unzipped);
    CanGoVia(nodes, unzipped, after);
    BucketStays(nodes, SDISTS);
  }

  /** A bucket outlives tidying exactly if it is a directory. */
  lemma {:induction false} BucketStays(nodes: Nodes, name: string)
    requires IsBucket(name) && !IsMarker(name)
    ensures [name] in Tidied(nodes) <==> IsDirectory(nodes, [name])
  {
    var top := Dropped(nodes, TopVictims(nodes));
    if IsDirectory(nodes, [name]) {
      forall v | v in TopVictims(nodes) ensures !(v <= [name]) {
        assert v <= [name] ==> v == [name];
      }
      assert [name] in top;
      forall v | v in EnvironmentVictims(top) ensures !(v <= [name]) {
      }
    } else if [name] in nodes {
      assert [name] in TopVictims(nodes) && [name] <= [name];
      assert [name] !in top;
    }
  }

  /** Removes stray top-level entries, then all cached environments. */
  method Tidy(fs: FileSystem, summary: Removal, ghost published: set<Path>, ghost good: bool) returns (ok: bool)
    requires Keeps(fs.nodes, published, good)
    modifies fs, summary
    ensures Keeps(fs.nodes, published, good)
    ensures ok ==> fs.nodes == Tidied(old(fs.nodes))
    ensures SucceedsIf(CanGo(old(fs.nodes), Tidied(old(fs.nodes))), ok, old(fs.failed), fs.failed)
    ensures fs.nodes.Keys <= old(fs.nodes).Keys
    ensures ok ==> summary.Total(fs.nodes) == old(summary.Total(fs.nodes))
    ensures old(fs.trace) <= fs.trace && (good ==> AllGood(fs.trace, |old(fs.trace)|, published))
  {
    if good {
      forall v | v in TopVictims(fs.nodes) ensures IsFree(fs.nodes, v, published) {
        assert v == [v[0]];
        TopLevelIsFree(fs.nodes, v[0], published);
      }
    }
    ghost var top := Dropped(fs.nodes, TopVictims(fs.nodes));
    CanGoVia(fs.nodes, top, Dropped(top, EnvironmentVictims(top)));
    ok := DeleteAll(fs, TopVictims(fs.nodes), summary, published, good);
    if ok {
      if good {
        forall v | v in EnvironmentVictims(fs.nodes) ensures IsFree(fs.nodes, v, published) {
          OutsideIsFree(fs.nodes, v, published);
        }
      }
      ok := DeleteAll(fs, EnvironmentVictims(fs.nodes), summary, published, good);
    }
  }

  /** Removes unzipped wheels, leaving only the archives they came from. */
  method Unzip(fs: FileSystem, summary: Removal, ghost published: set<Path>, ghost good: bool) returns (ok: bool)
    requires Keeps(fs.nodes, published, good)
    modifies fs, summary
    ensures Keeps(fs.nodes, published, good)
    ensures ok ==> fs.nodes == WithoutWheels(old(fs.nodes))
    ensures SucceedsIf([SDISTS] in old(fs.nodes) && CanGo(old(fs.nodes), WithoutWheels(old(fs.nodes))),
                       ok, old(fs.failed), fs.failed)
    ensures fs.nodes.Keys <= old(fs.nodes).Keys
    ensures ok ==> summary.Total(fs.nodes) == old(summary.Total(fs.nodes))
    ensures old(fs.trace) <= fs.trace && (good ==> AllGood(fs.trace, |old(fs.trace)|, published))
  {
    if good {
      forall v | v in WheelVictims(fs.nodes) ensures IsFree(fs.nodes, v, published) {
        OutsideIsFree(fs.nodes, v, published);
      }
    }
    ghost var wheels := Dropped(fs.nodes, WheelVictims(fs.nodes));
    CanGoVia(fs.nodes, wheels, Dropped(wheels, SdistVictims(wheels)));
    SdistsOutliveWheels(fs.nodes);
    ok := DeleteAll(fs, WheelVictims(fs.nodes), summary, published, good);
    if ok {
      ok := UnzipSdists(fs, summary, published, good);
    }
  }

  lemma {:induction false} SdistsOutliveWheels(nodes: Nodes)
    ensures [SDISTS] in Dropped(nodes, WheelVictims(nodes)) <==> [SDISTS] in nodes
  {
    assert forall v :: v in WheelVictims(nodes) ==> !(v <= [SDISTS]);
  }

  /** The victims in one directory, as it was at the start of the walk. */
  ghost function VictimsIn(nodes: Nodes, dir: Path): set<Path> {
    set p | p in nodes && IsSdistVictim(nodes, p) && Parent(p) == dir
  }

  ghost function VictimsInAll(nodes: Nodes, dirs: set<Path>): set<Path> {
    set p | p in nodes && IsSdistVictim(nodes, p) && Parent(p) in dirs
  }

  /**
   * Visits the directories of the bucket, in any order, and empties those that hold metadata. A
   * directory may be gone by the time it is visited.
   */
  method UnzipSdists(fs: FileSystem, summary: Removal, ghost published: set<Path>, ghost good: bool) returns (ok: bool)
    requires Keeps(fs.nodes, published, good)
    modifies fs, summary
    ensures Keeps(fs.nodes, published, good)
    ensures ok ==> fs.nodes == Dropped(old(fs.nodes), SdistVictims(old(fs.nodes)))
    ensures var after := Dropped(old(fs.nodes), SdistVictims(old(fs.nodes)));
      SucceedsIf([SDISTS] in old(fs.nodes) && CanGo(old(fs.nodes), after), ok, old(fs.failed), fs.failed)
    ensures fs.nodes.Keys <= old(fs.nodes).Keys
    ensures ok ==> summary.Total(fs.nodes) == old(summary.Total(fs.nodes))
    ensures old(fs.trace) <= fs.trace && (good ==> AllGood(fs.trace, |old(fs.trace)|, published))
  {
    if [SDISTS] !in fs.nodes {
      return false;
    }
    AllVictims(fs.nodes);
    ok := UnzipAll(fs, Directories(fs.nodes), summary, published, good);
  }

  /** The walk over a set of directories of the bucket. */
  method UnzipAll(fs: FileSystem, dirs: set<Path>, summary: Removal, ghost published: set<Path>, ghost good: bool)
    returns (ok: bool)
    requires Keeps(fs.nodes, published, good) && forall d :: d in dirs ==> d != [] && d[0] == SDISTS
    modifies fs, summary
    ensures Keeps(fs.nodes, published, good)
    ensures ok ==> fs.nodes == Dropped(old(fs.nodes), VictimsInAll(old(fs.nodes), dirs))
    ensures var after := Dropped(old(fs.nodes), VictimsInAll(old(fs.nodes), dirs));
      SucceedsIf(CanGo(old(fs.nodes), after), ok, old(fs.failed), fs.failed)
    ensures fs.nodes.Keys <= old(fs.nodes).Keys
    ensures ok ==> summary.Total(fs.nodes) == old(summary.Total(fs.nodes))
    ensures old(fs.trace) <= fs.trace && (good ==> AllGood(fs.trace, |old(fs.trace)|, published))
  {
    ghost var before := fs.nodes;
    var left := dirs;
    NoVictimsYet(before, dirs - left);
    while left != {}
      invariant left <= dirs && Keeps(fs.nodes, published, good)
      invariant fs.nodes == Dropped(before, VictimsInAll(before, dirs - left))
      invariant fs.failed == old(fs.failed) && CanGo(before, fs.nodes)
      invariant fs.nodes.Keys <= old(fs.nodes).Keys && summary.Total(fs.nodes) == old(summary.Total(fs.nodes))
      invariant old(fs.trace) <= fs.trace && (good ==> AllGood(fs.trace, |old(fs.trace)|, published))
      decreases left
    {
      var d :| d in left;
      ok := UnzipNext(fs, d, summary, published, good, before, dirs, dirs - left);
      if !ok {
        return false;
      }
      assert dirs - left + {d} == dirs - (left - {d});
      left := left - {d};
    }
    assert dirs - {} == dirs;
    return true;
  }

  /** Emptying one more of the directories is on the way to emptying all of them. */
  lemma {:induction false} UnzipsOnTheWay(before: Nodes, dirs: set<Path>, done: set<Path>, d: Path)
    requires done <= dirs && d in dirs
    ensures var now, all := Dropped(before, VictimsInAll(before, done)), Dropped(before, VictimsInAll(before, dirs));
      var next := Dropped(before, VictimsInAll(before, done + {d}));
      && (CanGo(before, all) ==> CanGo(now, next))
      && (CanGo(before, now) && CanGo(now, next) ==> CanGo(before, next))
  {
    var now, all := Dropped(before, VictimsInAll(before, done)), Dropped(before, VictimsInAll(before, dirs));
    var next := Dropped(before, VictimsInAll(before, done + {d}));
    DropsShrink(before, VictimsInAll(before, done), VictimsInAll(before, done + {d}));
    DropsShrink(before, VictimsInAll(before, done + {d}), VictimsInAll(before, dirs));
    CanGoVia(before, next, all);
    CanGoVia(before, now, next);
  }

  lemma {:induction false} NoVictimsYet(nodes: Nodes, dirs: set<Path>)
    requires dirs == {}
    ensures Dropped(nodes, VictimsInAll(nodes, dirs)) == nodes
  {
    assert VictimsInAll(nodes, dirs) == {};
    NothingDropped(nodes);
  }

  function Directories(nodes: Nodes): set<Path> {
    set d | d in nodes && d != [] && d[0] == SDISTS && nodes[d].Dir?
  }

  /** Empties one more directory, seen against the state at the start of the walk. */
  method UnzipNext(fs: FileSystem, d: Path, summary: Removal, ghost published: set<Path>, ghost good: bool,
                   ghost before: Nodes, ghost dirs: set<Path>, ghost done: set<Path>)
    returns (ok: bool)
    requires Keeps(fs.nodes, published, good) && d != [] && d[0] == SDISTS && done <= dirs && d in dirs
    requires fs.nodes == Dropped(before, VictimsInAll(before, done)) && CanGo(before, fs.nodes)
    modifies fs, summary
    ensures Keeps(fs.nodes, published, good)
    ensures ok ==> fs.nodes == Dropped(before, VictimsInAll(before, done + {d}))
    ensures ok ==> CanGo(before, fs.nodes) && fs.failed == old(fs.failed)
    ensures var all := Dropped(before, VictimsInAll(before, dirs));
      !ok ==> SucceedsIf(CanGo(before, all), ok, old(fs.failed), fs.failed)
    ensures fs.nodes.Keys <= old(fs.nodes).Keys
    ensures ok ==> summary.Total(fs.nodes) == old(summary.Total(fs.nodes))
    ensures old(fs.trace) <= fs.trace && (good ==> AllGood(fs.trace, |old(fs.trace)|, published))
  {
    VictimsStep(before, done, d);
    UnzipsOnTheWay(before, dirs, done, d);
    ok := UnzipDirectory(fs, d, summary, published, good);
  }

  method UnzipDirectory(fs: FileSystem, d: Path, summary: Removal, ghost published: set<Path>, ghost good: bool)
    returns (ok: bool)
    requires Keeps(fs.nodes, published, good) && d != [] && d[0] == SDISTS
    modifies fs, summary
    ensures Keeps(fs.nodes, published, good)
    ensures ok ==> fs.nodes == Dropped(old(fs.nodes), VictimsIn(old(fs.nodes), d))
    ensures var after := Dropped(old(fs.nodes), VictimsIn(old(fs.nodes), d));
      SucceedsIf(CanGo(old(fs.nodes), after), ok, old(fs.failed), fs.failed)
    ensures fs.nodes.Keys <= old(fs.nodes).Keys
    ensures ok ==> summary.Total(fs.nodes) == old(summary.Total(fs.nodes))
    ensures old(fs.trace) <= fs.trace && (good ==> AllGood(fs.trace, |old(fs.trace)|, published))
  {
    var victims := Superfluous(fs.nodes, d);
    SuperfluousAreVictims(fs.nodes, d);
    if good {
      forall v | v in victims ensures IsFree(fs.nodes, v, published) {
        OutsideIsFree(fs.nodes, v, published);
      }
    }
    ok := DeleteAll(fs, victims, summary, published, good);
  }

  /** What is listed in a directory with metadata, except the metadata and built wheels. */
  predicate IsSuperfluous(nodes: Nodes, d: Path, p: Path) {
    d + [METADATA] in nodes && |p| == |d| + 1 && d <= p && p[|d|] != METADATA && !IsWheelName(p[|d|])
  }

  function Superfluous(nodes: Nodes, d: Path): set<Path> {
    set p | p in nodes && IsSuperfluous(nodes, d, p)
  }

  lemma {:induction false} SuperfluousAreVictims(nodes: Nodes, d: Path)
    requires d != [] && d[0] == SDISTS
    ensures Superfluous(nodes, d) == VictimsIn(nodes, d)
  {
    forall p | p in nodes ensures IsSuperfluous(nodes, d, p) <==> IsSdistVictim(nodes, p) && Parent(p) == d {
      SuperfluousIffVictim(nodes, d, p);
    }
  }

  lemma {:induction false} SuperfluousIffVictim(nodes: Nodes, d: Path, p: Path)
    requires p in nodes && d != [] && d[0] == SDISTS
    ensures IsSuperfluous(nodes, d, p) <==> IsSdistVictim(nodes, p) && Parent(p) == d
  {
    if |p| == |d| + 1 {
      assert d <= p <==> Parent(p) == d;
      assert Parent(p) == d ==> p[0] == d[0] && p[|p| - 1] == p[|d|];
    }
  }

  /** Emptying one more directory of the current state amounts to dropping its original victims. */
  lemma {:induction false} VictimsStep(before: Nodes, done: set<Path>, d: Path)
    ensures var now := Dropped(before, VictimsInAll(before, done));
      Dropped(now, VictimsIn(now, d)) == Dropped(before, VictimsInAll(before, done + {d}))
  {
    var gone := VictimsInAll(before, done);
    var next := VictimsIn(Dropped(before, gone), d);
    forall v | v in VictimsInAll(before, done + {d}) ensures IsBelow(v, gone + next) {
      VictimIsCovered(before, done, d, v);
    }
    NextAreVictims(before, done, d);
    DropsAgree(before, gone, next, VictimsInAll(before, done + {d}));
  }

  lemma {:induction false} NextAreVictims(before: Nodes, done: set<Path>, d: Path)
    ensures var gone := VictimsInAll(before, done);
      gone + VictimsIn(Dropped(before, gone), d) <= VictimsInAll(before, done + {d})
  {
  }

  lemma {:induction false} DropsAgree(nodes: Nodes, gone: set<Path>, next: set<Path>, all: set<Path>)
    requires gone + next <= all && forall v :: v in all ==> IsBelow(v, gone + next)
    ensures Dropped(Dropped(nodes, gone), next) == Dropped(nodes, all)
  {
    DroppedTwice(nodes, gone, next);
    SameDrops(nodes, gone + next, all);
  }

  lemma {:induction false} SameDrops(nodes: Nodes, a: set<Path>, b: set<Path>)
    requires a <= b && forall v :: v in b ==> IsBelow(v, a)
    ensures Dropped(nodes, a) == Dropped(nodes, b)
  {
    forall q ensures IsBelow(q, a) <==> IsBelow(q, b) {
      if IsBelow(q, a) {
        var v :| v in a && v <= q;
        assert v in b;
      }
      if IsBelow(q, b) {
        var v :| v in b && v <= q;
        var w :| w in a && w <= v;
        assert w <= q;
      }
    }
  }

  /** A victim of the original state is gone already, or is a victim now. */
  lemma {:induction false} VictimIsCovered(before: Nodes, done: set<Path>, d: Path, v: Path)
    requires v in VictimsInAll(before, done + {d})
    ensures var now := Dropped(before, VictimsInAll(before, done));
      IsBelow(v, VictimsInAll(before, done) + VictimsIn(now, d))
  {
    var gone := VictimsInAll(before, done);
    var now := Dropped(before, gone);
    MetadataStays(before, gone, v);
    if IsBelow(v, gone) {
      var w :| w in gone && w <= v;
      assert w in gone + VictimsIn(now, d);
    } else {
      assert v !in gone by {
        assert v <= v;
      }
      assert v in VictimsIn(now, d);
    }
  }

  /** A directory that is still there still has its metadata, which is never a victim by itself. */
  lemma {:induction false} MetadataStays(before: Nodes, victims: set<Path>, v: Path)
    requires IsSdistVictim(before, v) && forall w :: w in victims ==> IsSdistVictim(before, w)
    ensures IsBelow(Parent(v) + [METADATA], victims) ==> IsBelow(v, victims)
  {
    var m := Parent(v) + [METADATA];
    if IsBelow(m, victims) {
      var w :| w in victims && w <= m;
      assert m[|m| - 1] == METADATA;
      assert w <= Parent(v);
      assert Parent(v) <= v;
    }
  }

  lemma {:induction false} AllVictims(before: Nodes)
    requires IsTree(before)
    ensures VictimsInAll(before, Directories(before)) == SdistVictims(before)
  {
  }

  /** Removes the archives that no link resolves to. */
  method CollectArchives(fs: FileSystem, summary: Removal, ghost published: set<Path>, ghost good: bool)
    returns (ok: bool)
    requires Keeps(fs.nodes, published, good)
    modifies fs, summary
    ensures Keeps(fs.nodes, published, good)
    ensures ok ==> fs.nodes == Dropped(old(fs.nodes), ArchiveVictims(old(fs.nodes)))
    ensures var after := Dropped(old(fs.nodes), ArchiveVictims(old(fs.nodes)));
      SucceedsIf(CanGo(old(fs.nodes), after), ok, old(fs.failed), fs.failed)
    ensures fs.nodes.Keys <= old(fs.nodes).Keys
    ensures ok ==> summary.Total(fs.nodes) == old(summary.Total(fs.nodes))
    ensures old(fs.trace) <= fs.trace && (good ==> AllGood(fs.trace, |old(fs.trace)|, published))
  {
    var references := FindArchiveReferences(fs.nodes);
    var victims := set p | p in fs.nodes && |p| == 2 && p[0] == ARCHIVE && p[1] !in references;
    assert victims == ArchiveVictims(fs.nodes);
    if good {
      forall v | v in victims ensures IsFree(fs.nodes, v, published) {
        assert v == Archive(v[1]);
        UnreferencedIsFree(fs.nodes, v[1], published);
      }
    }
    ok := DeleteAll(fs, victims, summary, published, good);
  }

  // ---------------------------------------------------------------------------------------------
  // Pruning is exact and idempotent

  lemma {:induction false} StagesShrink(nodes: Nodes, ci: bool)
    ensures forall p :: p in Pruned(nodes, ci) ==>
      p in Unzipped(nodes, ci) && p in Tidied(nodes) && p in nodes && Pruned(nodes, ci)[p] == nodes[p]
    ensures forall p :: p in Unzipped(nodes, ci) ==>
      p in Tidied(nodes) && p in nodes && Unzipped(nodes, ci)[p] == nodes[p]
  {
  }

  lemma {:induction false} NotBelowItself(p: Path, nodes: Nodes, victims: set<Path>)
    requires p in Dropped(nodes, victims)
    ensures p !in victims
  {
    assert p <= p;
  }

  /** After pruning, the archives left are exactly those that some scanned link resolves to. */
  lemma {:induction false} PruneIsExact(nodes: Nodes, ci: bool, id: string)
    ensures Archive(id) in Pruned(nodes, ci) <==> IsReferenced(Pruned(nodes, ci), id)
  {
    var before, after := Unzipped(nodes, ci), Pruned(nodes, ci);
    if Archive(id) in after {
      NotBelowItself(Archive(id), before, ArchiveVictims(before));
      var p :| IsReference(before, p, id);
      LinksOutliveArchives(before, p);
      assert IsReference(after, p, id);
    }
  }

  lemma {:induction false} LinksOutliveArchives(nodes: Nodes, p: Path)
    requires p in nodes && InLinkBucket(p)
    ensures p in Dropped(nodes, ArchiveVictims(nodes))
  {
    forall v | v in ArchiveVictims(nodes) ensures !(v <= p) {
      assert v[0] != p[0];
    }
  }

  /** A second run finds nothing to remove. */
  lemma {:induction false} PruneIsIdempotent(nodes: Nodes, ci: bool)
    ensures Pruned(Pruned(nodes, ci), ci) == Pruned(nodes, ci)
  {
    var after := Pruned(nodes, ci);
    NothingDropped(after);
    NoTidyVictims(nodes, ci);
    assert Tidied(after) == after;
    if ci {
      NoUnzipVictims(nodes);
    }
    assert Unzipped(after, ci) == after;
    forall p | p in ArchiveVictims(after) ensures false {
      assert p == Archive(p[1]);
      PruneIsExact(nodes, ci, p[1]);
    }
    assert ArchiveVictims(after) == {};
  }

  lemma {:induction false} NoTidyVictims(nodes: Nodes, ci: bool)
    ensures TopVictims(Pruned(nodes, ci)) == {} && EnvironmentVictims(Pruned(nodes, ci)) == {}
  {
    var after, top := Pruned(nodes, ci), Dropped(nodes, TopVictims(nodes));
    StagesShrink(nodes, ci);
    forall p | p in after ensures p !in TopVictims(after) && p !in EnvironmentVictims(after) {
      assert p in Tidied(nodes);
      NotBelowItself(p, top, EnvironmentVictims(top));
      NotBelowItself(p, nodes, TopVictims(nodes));
    }
  }

  lemma {:induction false} NoUnzipVictims(nodes: Nodes)
    ensures WheelVictims(Pruned(nodes, true)) == {} && SdistVictims(Pruned(nodes, true)) == {}
  {
    var after, tidy := Pruned(nodes, true), Tidied(nodes);
    var wheels := Dropped(tidy, WheelVictims(tidy));
    StagesShrink(nodes, true);
    forall p | p in after ensures p !in WheelVictims(after) && p !in SdistVictims(after) {
      assert p in Unzipped(nodes, true);
      NotBelowItself(p, wheels, SdistVictims(wheels));
      NotBelowItself(p, tidy, WheelVictims(tidy));
      assert p in SdistVictims(after) ==> IsSdistVictim(wheels, p);
    }
  }

  // ---------------------------------------------------------------------------------------------
  // What the search for links must see

  /**
   * Without the assumption that links lie where the search finds them: pruning keeps all links
   * safe exactly when every link left by the earlier stages points to an archive that some scanned
   * link also points to.
   */
  lemma {:induction false} PruneSafety(nodes: Nodes, ci: bool, published: set<Path>)
    requires IsTree(nodes) && IsSafe(nodes, published)
    requires forall q :: q in published ==> |q| >= 2 && q[0] == ARCHIVE
    ensures IsSafe(Pruned(nodes, ci), published) <==>
      forall p :: IsLink(Unzipped(nodes, ci), p) ==> IsReferenced(Unzipped(nodes, ci), nodes[p].id)
  {
    var before, after := Unzipped(nodes, ci), Pruned(nodes, ci);
    StagesShrink(nodes, ci);
    forall p | IsLink(before, p)
      ensures IsLink(after, p) && (IsIntact(after, nodes[p].id, published) <==> IsReferenced(before, nodes[p].id))
    {
      LinksOutliveArchives(before, p);
      EarlyStagesKeepArchives(nodes, ci, published, p);
      IntactIfReferenced(before, published, nodes[p].id);
    }
    assert forall p :: IsLink(after, p) ==> IsLink(before, p);
  }

  lemma {:induction false} IntactIfReferenced(before: Nodes, published: set<Path>, id: string)
    requires IsIntact(before, id, published)
    ensures IsIntact(Dropped(before, ArchiveVictims(before)), id, published) <==> IsReferenced(before, id)
  {
    var victims := ArchiveVictims(before);
    assert Archive(id) <= Archive(id) && Archive(id) in before;
    if !IsReferenced(before, id) {
      assert Archive(id) in victims;
      assert IsBelow(Archive(id), victims);
    } else {
      forall q | q in published && Archive(id) <= q ensures !IsBelow(q, victims) {
        forall v | v in victims ensures !(v <= q) {
          assert v == Archive(v[1]) && v[1] != id;
          ArchivesAreApart(id, v[1], q);
        }
      }
    }
  }

  /** The stages before the last one remove no part of an archive that a link points to. */
  lemma {:induction false} EarlyStagesKeepArchives(nodes: Nodes, ci: bool, published: set<Path>, p: Path)
    requires IsTree(nodes) && IsSafe(nodes, published) && IsLink(nodes, p)
    requires forall q :: q in published ==> |q| >= 2 && q[0] == ARCHIVE
    ensures IsIntact(Unzipped(nodes, ci), nodes[p].id, published)
  {
    var archive := Archive(nodes[p].id);
    assert archive <= archive && archive in nodes;
    assert Parent(archive) == [ARCHIVE] && nodes[[ARCHIVE]].Dir?;
    forall q | q in published && archive <= q ensures q in Unzipped(nodes, ci) {
      assert q in nodes && q[0] == ARCHIVE;
      ArchiveNodesStay(nodes, ci, q);
    }
  }

  lemma {:induction false} ArchiveNodesStay(nodes: Nodes, ci: bool, q: Path)
    requires q in nodes && |q| >= 2 && q[0] == ARCHIVE && [ARCHIVE] in nodes && nodes[[ARCHIVE]].Dir?
    ensures q in Unzipped(nodes, ci)
  {
    forall v | v in TopVictims(nodes) ensures !(v <= q) {
      assert v == [v[0]] && v != [ARCHIVE];
    }
    var top := Dropped(nodes, TopVictims(nodes));
    assert forall v :: v in EnvironmentVictims(top) ==> v[0] != q[0];
    assert !IsBelow(q, EnvironmentVictims(top));
    var tidy := Tidied(nodes);
    assert forall v :: v in WheelVictims(tidy) ==> v[0] != q[0];
    assert !IsBelow(q, WheelVictims(tidy));
    var wheels := Dropped(tidy, WheelVictims(tidy));
    assert forall v :: v in SdistVictims(wheels) ==> v[0] != q[0];
    assert !IsBelow(q, SdistVictims(wheels));
  }

  /** The link to the unzipped wheel of a package named `src`. */
  const SRC_LINK: Path := [WHEELS, "pypi", "src", "src-1.0-py3-none-any"]

  /** A cache with just that wheel and its archive. */
  function SrcPackage(): Nodes {
    map[[] := Dir(true, true), [WHEELS] := Dir(true, true), [WHEELS, "pypi"] := Dir(true, true),
        [WHEELS, "pypi", "src"] := Dir(true, true), SRC_LINK := Link("x", 0),
        [ARCHIVE] := Dir(true, true), [ARCHIVE, "x"] := Dir(true, true)]
  }

  lemma {:induction false} SrcPackageIsTree()
    ensures IsTree(SrcPackage())
  {
    assert Parent([WHEELS]) == [] && Parent([ARCHIVE]) == [] && Parent([ARCHIVE, "x"]) == [ARCHIVE];
    assert Parent([WHEELS, "pypi"]) == [WHEELS] && Parent([WHEELS, "pypi", "src"]) == [WHEELS, "pypi"];
    assert Parent(SRC_LINK) == [WHEELS, "pypi", "src"];
  }

  lemma {:induction false} OnlySrcLink(p: Path)
    requires p in SrcPackage() && SrcPackage()[p].Link?
    ensures p == SRC_LINK
  {
  }

  lemma {:induction false} NoTopVictims()
    ensures TopVictims(SrcPackage()) == {} && EnvironmentVictims(SrcPackage()) == {}
  {
    forall p | p in SrcPackage() ensures p !in TopVictims(SrcPackage()) && p !in EnvironmentVictims(SrcPackage()) {
      assert |p| == 1 ==> p == [WHEELS] || p == [ARCHIVE];
      assert |p| == 2 ==> p[0] == WHEELS || p[0] == ARCHIVE;
    }
  }

  lemma {:induction false} SrcPackageIsTidy()
    ensures Unzipped(SrcPackage(), false) == SrcPackage()
  {
    NoTopVictims();
    NothingDropped(SrcPackage());
  }

  lemma {:induction false} SrcPackageIsHidden()
    ensures !IsReferenced(SrcPackage(), "x")
  {
    forall p ensures !IsReference(SrcPackage(), p, "x") {
      if IsLink(SrcPackage(), p) {
        OnlySrcLink(p);
        assert p[2] == "src";
      }
    }
  }

  lemma {:induction false} SrcPackageIsSafe()
    ensures IsSafe(SrcPackage(), {Archive("x")})
  {
    forall p | IsLink(SrcPackage(), p) ensures IsIntact(SrcPackage(), SrcPackage()[p].id, {Archive("x")}) {
      OnlySrcLink(p);
    }
  }

  /**
   * The search skips every directory named `src`, so pruning takes the archive away from the wheels
   * of a package of that name.
   */
  lemma {:induction false} PruneCanBreakLinks()
    ensures IsTree(SrcPackage()) && IsSafe(SrcPackage(), {Archive("x")})
    ensures !IsSafe(Pruned(SrcPackage(), false), {Archive("x")})
  {
    SrcPackageIsTree();
    SrcPackageIsSafe();
    SrcPackageIsTidy();
    SrcPackageIsHidden();
    PruneSafety(SrcPackage(), false, {Archive("x")});
    assert IsLink(SrcPackage(), SRC_LINK) && SrcPackage()[SRC_LINK].id == "x";
  }

  lemma {:induction false} SrcPackageCanBePruned()
    ensures CanPrune(SrcPackage(), false)
  {
    forall d | d in SrcPackage() ensures SrcPackage()[d] != Dir(false, true) {
    }
  }

  /** Pruning that cache, if it runs to its end, leaves the link without its archive. */
  method PruneSrcPackage() returns (fs: FileSystem, ok: bool)
    ensures fresh(fs) && (ok ==> !IsSafe(fs.nodes, {Archive("x")})) && (!ok ==> fs.failed)
  {
    PruneCanBreakLinks();
    SrcPackageCanBePruned();
    fs := new FileSystem(SrcPackage());
    var summary := new Removal();
    ok := Prune(fs, false, summary, {Archive("x")}, false);
  }

  // ---------------------------------------------------------------------------------------------
  // Removing a package

  method Remove(fs: FileSystem, name: string, isMatch: Path -> bool, summary: Removal, ghost published: set<Path>,
                ghost good: bool)
    returns (ok: bool)
    requires Keeps(fs.nodes, published, good)
    modifies fs, summary
    ensures Keeps(fs.nodes, published, good)
    ensures ok ==> fs.nodes == WithoutPackage(old(fs.nodes), name, isMatch)
    ensures ok ==> WasRemoved(old(fs.nodes), fs.nodes, name, isMatch)
    ensures var after := WithoutPackage(old(fs.nodes), name, isMatch);
      SucceedsIf(CanGo(old(fs.nodes), after), ok, old(fs.failed), fs.failed)
    ensures fs.nodes.Keys <= old(fs.nodes).Keys
    ensures ok ==> summary.Total(fs.nodes) == old(summary.Total(fs.nodes))
    ensures old(fs.trace) <= fs.trace && (good ==> AllGood(fs.trace, |old(fs.trace)|, published))
  {
    ghost var before := fs.nodes;
    var references := FindArchiveReferences(fs.nodes);
    var entries := PackageEntries(fs.nodes, name, isMatch);
    if good {
      forall v | v in entries ensures IsFree(fs.nodes, v, published) {
        OutsideIsFree(fs.nodes, v, published);
      }
    }
    ghost var middle := Dropped(before, entries);
    CanGoVia(before, middle, Dropped(middle, Orphans(before, middle)));
    RemovalAgrees(before, name, isMatch);
    ok := DeleteAll(fs, entries, summary, published, good);
    if ok {
      EntriesAreNoArchives(before, name, isMatch);
      ok := RemoveOrphans(fs, references, summary, published, good, before);
    }
  }

  /** Nothing but links and entries disappeared since `before`, and no link appeared. */
  ghost predicate OnlyEntriesGone(now: Nodes, before: Nodes) {
    && (forall q :: q in now ==> q in before && now[q] == before[q])
    && (forall q :: q in before && q != [] && q[0] == ARCHIVE ==> q in now)
  }

  method RemoveOrphans(fs: FileSystem, references: map<string, set<Path>>, summary: Removal,
                       ghost published: set<Path>, ghost good: bool, ghost before: Nodes)
    returns (ok: bool)
    requires Keeps(fs.nodes, published, good) && Keeps(before, published, good) && AreReferences(references, before)
    requires OnlyEntriesGone(fs.nodes, before)
    modifies fs, summary
    ensures Keeps(fs.nodes, published, good)
    ensures ok ==> fs.nodes == Dropped(old(fs.nodes), Orphans(before, old(fs.nodes)))
    ensures var after := Dropped(old(fs.nodes), Orphans(before, old(fs.nodes)));
      SucceedsIf(CanGo(old(fs.nodes), after), ok, old(fs.failed), fs.failed)
    ensures fs.nodes.Keys <= old(fs.nodes).Keys
    ensures ok ==> summary.Total(fs.nodes) == old(summary.Total(fs.nodes))
    ensures old(fs.trace) <= fs.trace && (good ==> AllGood(fs.trace, |old(fs.trace)|, published))
  {
    var orphans := Unreferenced(fs.nodes, references);
    OrphansAreUnreferenced(references, before, fs.nodes);
    if good {
      OrphansAreFree(before, fs.nodes, published);
    }
    ok := DeleteAll(fs, orphans, summary, published, good);
  }

  lemma {:induction false} OrphansAreFree(before: Nodes, now: Nodes, published: set<Path>)
    requires IsGood(now, published) && OnlyEntriesGone(now, before)
    ensures forall v :: v in Orphans(before, now) ==> IsFree(now, v, published)
  {
    forall v | v in Orphans(before, now) ensures IsFree(now, v, published) {
      assert v == Archive(v[1]);
      OrphanIsFree(before, now, published, v[1]);
    }
  }

  /** The archives in a list of references none of which exists any more. */
  function Unreferenced(nodes: Nodes, references: map<string, set<Path>>): set<Path> {
    set p | p in nodes && |p| == 2 && p[0] == ARCHIVE && p[1] in references && references[p[1]] !! nodes.Keys
  }

  lemma {:induction false} OrphansAreUnreferenced(references: map<string, set<Path>>, before: Nodes, now: Nodes)
    requires AreReferences(references, before) && OnlyEntriesGone(now, before)
    ensures Unreferenced(now, references) == Orphans(before, now)
  {
    forall p | p in before && |p| == 2 && p[0] == ARCHIVE && p[1] in references
      ensures references[p[1]] !! now.Keys <==> forall r :: IsReference(before, r, p[1]) ==> r !in now
    {
      assert forall r :: r in references[p[1]] <==> IsReference(before, r, p[1]);
    }
  }

  lemma {:induction false} OrphanIsFree(before: Nodes, now: Nodes, published: set<Path>, id: string)
    requires IsGood(now, published) && OnlyEntriesGone(now, before)
    requires forall r :: IsReference(before, r, id) ==> r !in now
    ensures IsFree(now, Archive(id), published)
  {
    assert forall q :: IsReference(now, q, id) ==> IsReference(before, q, id);
    UnreferencedIsFree(now, id, published);
  }

  /** The archives that `remove` deletes are exactly those that had a scanned link and have none now. */
  lemma {:induction false} RemoveIsExact(before: Nodes, entries: set<Path>, id: string)
    requires forall v :: v in entries ==> v != [] && v[0] != ARCHIVE
    requires Archive(id) in before
    ensures var after := Dropped(Dropped(before, entries), Orphans(before, Dropped(before, entries)));
      Archive(id) !in after <==>
        IsReferenced(before, id) && forall p :: IsLink(after, p) && IsScanned(p) ==> after[p].id != id
  {
    var middle := Dropped(before, entries);
    var orphans := Orphans(before, middle);
    var after := Dropped(middle, orphans);
    assert forall v :: v in entries ==> !(v <= Archive(id)) by {
      assert forall v :: v in entries && v <= Archive(id) ==> v[0] == ARCHIVE;
    }
    assert Archive(id) in middle;
    assert Archive(id) !in after <==> Archive(id) in orphans by {
      assert Archive(id) <= Archive(id);
      forall v | v in orphans && v <= Archive(id) ensures v == Archive(id) {
        assert |v| == 2;
      }
    }
    forall p | p in middle && InLinkBucket(p) ensures p in after {
      forall v | v in orphans ensures !(v <= p) {
        assert v[0] != p[0];
      }
    }
    assert forall p :: IsLink(after, p) && IsScanned(p) && after[p].id == id ==> IsReference(before, p, id);
    assert forall p :: IsReference(before, p, id) && p in middle ==> IsLink(after, p);
  }

  // ---------------------------------------------------------------------------------------------
  // Clearing the cache

  /**
   * Removes everything. `lockHeld` says whether the cache holds its lock file, which is removed
   * last but one. Files and directories are counted exactly if the lock is held, and otherwise one
   * file too many is reported; the bytes of the lock file are never counted.
   */
  method Clear(fs: FileSystem, lockHeld: bool) returns (ok: bool, removal: Removal)
    requires fs.Valid() && ([] in fs.nodes ==> fs.nodes[[]].Dir?)
    requires lockHeld ==> [LOCK] in fs.nodes && !fs.nodes[[LOCK]].Dir?
    modifies fs
    ensures fresh(removal)
    ensures ok ==> fs.nodes.Keys == if [LOCK] in old(fs.nodes) && !lockHeld then {[], [LOCK]} else {}
    ensures SucceedsIf([] in old(fs.nodes) && CanBeRemoved(old(fs.nodes), []), ok, old(fs.failed), fs.failed)
    ensures ok ==> removal.numDirs + |Dirs(fs.nodes)| == |Dirs(old(fs.nodes))|
    ensures ok ==> removal.numFiles + |Files(fs.nodes)| == |Files(old(fs.nodes))| + (if lockHeld then 0 else 1)
    ensures var lock := if lockHeld then Size(old(fs.nodes)[[LOCK]]) else 0;
      ok ==> removal.totalBytes + Bytes(fs.nodes) + lock == Bytes(old(fs.nodes))
  {
    removal := new Removal();
    ok := RemoveContents(fs, removal);
    if ok {
      ok := RemoveRest(fs, lockHeld, removal);
    }
  }

  /** Removes what the removal of the contents has left. */
  method RemoveRest(fs: FileSystem, lockHeld: bool, removal: Removal) returns (ok: bool)
    requires fs.Valid() && (forall q :: q in fs.nodes ==> q == [] || q == [LOCK])
    requires ([] in fs.nodes ==> fs.nodes[[]].Dir?) && (lockHeld ==> [LOCK] in fs.nodes && !fs.nodes[[LOCK]].Dir?)
    modifies fs, removal
    ensures SucceedsIf([] in old(fs.nodes), ok, old(fs.failed), fs.failed)
    ensures ok ==> fs.nodes.Keys == if [LOCK] in old(fs.nodes) && !lockHeld then {[], [LOCK]} else {}
    ensures ok ==> removal.numDirs + |Dirs(fs.nodes)| == old(removal.numDirs + |Dirs(fs.nodes)|)
    ensures ok ==>
      removal.numFiles + |Files(fs.nodes)| == old(removal.numFiles + |Files(fs.nodes)|) + (if lockHeld then 0 else 1)
    ensures var lock := if lockHeld then Size(old(fs.nodes)[[LOCK]]) else 0;
      ok ==> removal.totalBytes + Bytes(fs.nodes) + lock == old(removal.totalBytes + Bytes(fs.nodes))
  {
    assert [LOCK] in fs.nodes ==> Parent([LOCK]) == [];
    ok := RemoveLock(fs, lockHeld, removal);
    if ok {
      ok := RemoveRoot(fs, removal);
    }
  }

  /** Removes everything but the lock and the directory of the cache. */
  method RemoveContents(fs: FileSystem, removal: Removal) returns (ok: bool)
    requires fs.Valid() && ([] in fs.nodes ==> fs.nodes[[]].Dir?)
    modifies fs, removal
    ensures fs.Valid() && SucceedsIf(CanBeRemoved(old(fs.nodes), []), ok, old(fs.failed), fs.failed)
    ensures ok ==> forall q :: q in fs.nodes <==> q in old(fs.nodes) && (q == [] || q == [LOCK])
    ensures ok ==> forall q :: q in fs.nodes ==> SameButModes(fs.nodes[q], old(fs.nodes)[q])
    ensures ok ==> removal.numDirs + |Dirs(fs.nodes)| == old(removal.numDirs + |Dirs(fs.nodes)|)
    ensures ok ==> removal.numFiles + |Files(fs.nodes)| == old(removal.numFiles + |Files(fs.nodes)|)
    ensures ok ==> removal.totalBytes + Bytes(fs.nodes) == old(removal.totalBytes + Bytes(fs.nodes))
  {
    ghost var before := fs.nodes;
    ok := removal.RmRf(fs, [], true);
    if ok {
      OnlyLockLeft(fs.nodes, before);
    }
  }

  /** Removes the lock file if it is held; it is reported in any case. */
  method RemoveLock(fs: FileSystem, lockHeld: bool, removal: Removal) returns (ok: bool)
    requires fs.Valid() && forall q :: q in fs.nodes ==> q == [] || q == [LOCK]
    requires lockHeld ==> [LOCK] in fs.nodes && !fs.nodes[[LOCK]].Dir?
    modifies fs, removal
    ensures fs.Valid() && fs.failed == (old(fs.failed) || !ok)
    ensures ok ==> fs.nodes == if lockHeld then old(fs.nodes) - {[LOCK]} else old(fs.nodes)
    ensures ok ==> removal.numDirs + |Dirs(fs.nodes)| == old(removal.numDirs + |Dirs(fs.nodes)|)
    ensures ok ==>
      removal.numFiles + |Files(fs.nodes)| == old(removal.numFiles + |Files(fs.nodes)|) + (if lockHeld then 0 else 1)
    ensures var lock := if lockHeld then Size(old(fs.nodes)[[LOCK]]) else 0;
      ok ==> removal.totalBytes + Bytes(fs.nodes) + lock == old(removal.totalBytes + Bytes(fs.nodes))
  {
    ok := true;
    if lockHeld {
      CountWithout(fs.nodes, [LOCK]);
      BytesWithout(fs.nodes, [LOCK]);
      ok := fs.RemoveNode([LOCK]);
    }
    if ok {
      removal.numFiles := removal.numFiles + 1;
    }
  }

  /** Removes the directory of the cache, which must exist, unless it still holds a lock. */
  method RemoveRoot(fs: FileSystem, removal: Removal) returns (ok: bool)
    requires fs.Valid() && (forall q :: q in fs.nodes ==> q == [] || q == [LOCK])
    requires [] in fs.nodes ==> fs.nodes[[]].Dir?
    modifies fs, removal
    ensures SucceedsIf([] in old(fs.nodes), ok, old(fs.failed), fs.failed)
    ensures ok ==> fs.nodes == if [LOCK] in old(fs.nodes) then old(fs.nodes) else map[]
    ensures ok ==> removal.Total(fs.nodes) == old(removal.Total(fs.nodes))
  {
    if [] !in fs.nodes {
      return false;
    }
    ok := true;
    if [LOCK] !in fs.nodes {
      CountWithout(fs.nodes, []);
      BytesWithout(fs.nodes, []);
      ok := fs.RemoveNode([]);
      if ok {
        removal.numDirs := removal.numDirs + 1;
      }
    }
  }

  lemma {:induction false} WhatIsKept(now: Nodes, before: Nodes, q: Path)
    requires IsRemoved(now, before, [], true) && q in before && [] in before && before[[]].Dir?
    ensures q in now <==> q == [] || q == [LOCK]
    ensures q in now ==> SameButModes(now[q], before[q])
  {
    assert [] + [LOCK] == [LOCK] && [] <= q;
    assert IsDoomed(before, q, [], true) <==> q != [] && q != [LOCK];
  }

  lemma {:induction false} OnlyLockLeft(now: Nodes, before: Nodes)
    requires IsRemoved(now, before, [], true) && IsTree(before) && ([] in before ==> before[[]].Dir?)
    ensures now.Keys == before.Keys * {[], [LOCK]}
    ensures forall q :: q in now ==> SameButModes(now[q], before[q])
  {
    forall q | q in before ensures [] in before && (q in now <==> q == [] || q == [LOCK]) {
      AncestorsExist(before, [], q);
      WhatIsKept(now, before, q);
    }
  }
}
