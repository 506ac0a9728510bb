/**
 * Which entries of the cache `Cache::prune` and `Cache::remove` in crates/uv-cache/src/lib.rs take
 * away: stage by stage, as the code selects them, and as a condition on each node by itself, in
 * terms of the names on its path. The two agree on every tree.
 */
module CacheStages {
  import opened FileSystem
  import opened CacheLayout
  import opened CacheEntries

  // ---------------------------------------------------------------------------------------------
  // What pruning removes, stage by stage

  function TopVictims(nodes: Nodes): set<Path> {
    set p | p in nodes && |p| == 1 && !IsMarker(p[0]) && !(nodes[p].Dir? && IsBucket(p[0]))
  }

  function EnvironmentVictims(nodes: Nodes): set<Path> {
    set p | p in nodes && |p| == 2 && p[0] == ENVIRONMENTS
  }

  function WheelVictims(nodes: Nodes): set<Path> {
    set p | p in nodes && |p| == 2 && p[0] == WHEELS && nodes[p].Dir?
  }

  /** Next to `metadata.msgpack`, only that file and built wheels stay. */
  predicate IsSdistVictim(nodes: Nodes, p: Path) {
    && p in nodes && |p| >= 2 && p[0] == SDISTS && Parent(p) + [METADATA] in nodes
    && p[|p| - 1] != METADATA && !IsWheelName(p[|p| - 1])
  }

  ghost function SdistVictims(nodes: Nodes): set<Path> {
    set p | p in nodes && IsSdistVictim(nodes, p)
  }

  ghost function ArchiveVictims(nodes: Nodes): set<Path> {
    set p | p in nodes && |p| == 2 && p[0] == ARCHIVE && !IsReferenced(nodes, p[1])
  }

  /** The state after the first two stages, then after the third, then after the last. */
  ghost function Tidied(nodes: Nodes): Nodes {
    var top := Dropped(nodes, TopVictims(nodes));
    Dropped(top, EnvironmentVictims(top))
  }

  ghost function Unzipped(nodes: Nodes, ci: bool): Nodes {
    var tidy := Tidied(nodes);
    if ci then WithoutWheels(tidy) else tidy
  }

  ghost function WithoutWheels(nodes: Nodes): Nodes {
    var wheels := Dropped(nodes, WheelVictims(nodes));
    Dropped(wheels, SdistVictims(wheels))
  }

  ghost function Pruned(nodes: Nodes, ci: bool): Nodes {
    Dropped(Unzipped(nodes, ci), ArchiveVictims(Unzipped(nodes, ci)))
  }

  // ---------------------------------------------------------------------------------------------
  // What removing a package removes

  /** A directory at `dir` below which `isMatch` finds the metadata of the package in some version. */
  predicate HasMatch(nodes: Nodes, dir: Path, isMatch: Path -> bool) {
    exists v :: v in nodes && |v| == |dir| + 1 && dir <= v && nodes[v].Dir? && isMatch(v)
  }

  /**
   * The entries that `CacheBucket::remove` removes for a package; `isMatch` says that a directory
   * holds metadata naming the package.
   */
  predicate IsPackageEntry(nodes: Nodes, p: Path, name: string, isMatch: Path -> bool) {
    || p == [WHEELS, "pypi", name] || p == [SDISTS, "pypi", name]
    || (|p| == 4 && p[0] == WHEELS && (p[1] == "index" || p[1] == "url") && p[3] == name && IsDirectory(nodes, p[..3]))
    || (|p| == 4 && p[0] == SDISTS && p[1] == "index" && p[3] == name && IsDirectory(nodes, p[..3]))
    || (|p| == 3 && p[0] == SDISTS && (p[1] == "url" || p[1] == "path")
        && IsDirectory(nodes, p) && HasMatch(nodes, p, isMatch))
    || (|p| == 4 && p[0] == SDISTS && p[1] == "git"
        && IsDirectory(nodes, p[..3]) && IsDirectory(nodes, p) && isMatch(p))
    || p == [SIMPLE, "pypi", name + ".rkyv"]
    || (|p| == 4 && p[0] == SIMPLE && p[1] == "index" && p[3] == name + ".rkyv" && IsDirectory(nodes, p[..3]))
    || p == [FLAT_INDEX]
  }

  predicate IsDirectory(nodes: Nodes, p: Path) {
    p in nodes && nodes[p].Dir?
  }

  function PackageEntries(nodes: Nodes, name: string, isMatch: Path -> bool): set<Path> {
    set p | p in nodes && IsPackageEntry(nodes, p, name, isMatch)
  }

  /** The archives that were referenced and whose references are all gone. */
  ghost function Orphans(before: Nodes, after: Nodes): set<Path> {
    set p | p in before && |p| == 2 && p[0] == ARCHIVE && IsReferenced(before, p[1])
            && forall r :: IsReference(before, r, p[1]) ==> r !in after
  }

  /** The state after removing a package: its entries are gone, and then the archives that only they referenced. */
  ghost function WithoutPackage(nodes: Nodes, name: string, isMatch: Path -> bool): Nodes {
    var entries := Dropped(nodes, PackageEntries(nodes, name, isMatch));
    Dropped(entries, Orphans(nodes, entries))
  }

  // ---------------------------------------------------------------------------------------------
  // Names

  /** The letter is the given small one, or its capital. */
  predicate IsLetter(c: char, small: char) {
    c == small || ('A' <= c <= 'Z' && c as int + 32 == small as int)
  }

  /** The name ends in a dot and the extension, in any case, and has something before it. */
  predicate EndsIn(name: string, extension: string) {
    var n := |name| - |extension|;
    n > 1 && name[n - 1] == '.' && forall i :: 0 <= i < |extension| ==> IsLetter(name[n + i], extension[i])
  }

  lemma {:induction false} LastDotIs(name: string, i: int)
    requires 0 <= i < |name| && name[i] == '.' && forall j :: i < j < |name| ==> name[j] != '.'
    ensures LastDot(name) == i
  {
    if i < |name| - 1 {
      LastDotIs(name[..|name| - 1], i);
    }
  }

  lemma {:induction false} AfterLastDot(name: string)
    ensures LastDot(name) >= 0 ==> name[LastDot(name)] == '.'
    ensures forall j :: LastDot(name) < j < |name| ==> name[j] != '.'
  {
    if name != [] && name[|name| - 1] != '.' {
      AfterLastDot(name[..|name| - 1]);
    }
  }

  lemma {:induction false} ExtensionIs(name: string, extension: string)
    requires extension != [] && forall i :: 0 <= i < |extension| ==> 'a' <= extension[i] <= 'z'
    ensures Lower(Extension(name)) == extension <==> EndsIn(name, extension)
  {
    AfterLastDot(name);
    if EndsIn(name, extension) {
      var n := |name| - |extension|;
      forall j | n <= j < |name| ensures name[j] != '.' {
        assert IsLetter(name[n + (j - n)], extension[j - n]);
      }
      LastDotIs(name, n - 1);
      SameLetters(Extension(name), extension);
    }
    if Lower(Extension(name)) == extension {
      SameLetters(Extension(name), extension);
      assert Extension(name) == name[|name| - |extension|..];
    }
  }

  lemma {:induction false} SameLetters(s: string, small: string)
    requires |s| == |small| && forall i :: 0 <= i < |small| ==> 'a' <= small[i] <= 'z'
    ensures Lower(s) == small <==> forall i :: 0 <= i < |small| ==> IsLetter(s[i], small[i])
  {
    forall i | 0 <= i < |small| ensures Lower(s)[i] == small[i] <==> IsLetter(s[i], small[i]) {
    }
  }

  predicate IsBuiltWheel(name: string) {
    EndsIn(name, "whl")
  }

  /** What the search for links passes over. */
  predicate IsPassedOver(name: string) {
    || name == "src" || name == ".lock" || name == ".gitignore" || EndsIn(name, "lock") || EndsIn(name, "whl")
    || EndsIn(name, "http") || EndsIn(name, "rev") || EndsIn(name, "msgpack")
  }

  lemma {:induction false} NamesAgree(name: string)
    ensures IsWheelName(name) <==> IsBuiltWheel(name)
    ensures IsFiltered(name) <==> IsPassedOver(name)
  {
    ExtensionIs(name, "lock");
    ExtensionIs(name, "whl");
    ExtensionIs(name, "http");
    ExtensionIs(name, "rev");
    ExtensionIs(name, "msgpack");
  }

  // ---------------------------------------------------------------------------------------------
  // What is left after pruning

  predicate IsCacheMarker(name: string) {
    name in {"CACHEDIR.TAG", ".gitignore", ".git", ".lock"}
  }

  predicate IsBucketName(name: string) {
    name in {"wheels-v5", "sdists-v9", "flat-index-v2", "git-v0", "interpreter-v4", "simple-v18", "archive-v0",
             "builds-v0", "environments-v2", "binaries-v0"}
  }

  /** An entry beside the metadata of a source distribution that is neither that nor a built wheel. */
  predicate IsUnpacked(nodes: Nodes, p: Path)
    requires p != []
  {
    && p[..|p| - 1] + ["metadata.msgpack"] in nodes
    && p[|p| - 1] != "metadata.msgpack" && !IsBuiltWheel(p[|p| - 1])
  }

  /** A link to the archive where the search finds it. */
  ghost predicate IsLiveLink(nodes: Nodes, p: Path, id: string) {
    && p in nodes && p != [] && p[0] in {"wheels-v5", "sdists-v9"} && nodes[p].Link? && nodes[p].id == id
    && forall i :: 1 <= i < |p| ==> !IsPassedOver(p[i])
  }

  /** The top-level entry is a marker or a directory with the name of a bucket. */
  predicate IsCacheEntry(nodes: Nodes, name: string) {
    IsCacheMarker(name) || (IsBucketName(name) && [name] in nodes && nodes[[name]].Dir?)
  }

  /** The condition for one node to be left. */
  ghost predicate Survives(before: Nodes, after: Nodes, p: Path, ci: bool) {
    if p == [] then true
    else if !IsCacheEntry(before, p[0]) then false
    else if p[0] == "environments-v2" then |p| == 1
    else if p[0] == "wheels-v5" then ci && |p| > 1 ==> p[..2] in before && !before[p[..2]].Dir?
    else if p[0] == "sdists-v9" then ci ==> forall n :: 2 <= n <= |p| ==> !IsUnpacked(before, p[..n])
    else if p[0] == "archive-v0" then |p| > 1 ==> exists link :: IsLiveLink(after, link, p[1])
    else true
  }

  /**
   * Only markers and buckets stay at the top, and no environments. On continuous integration, wheels
   * that were unpacked go, and in the source distribution bucket everything that lies beside metadata
   * or below such an entry, but not the metadata itself and built wheels. Archives stay if a link is
   * left that leads to them. Nothing that stays is changed.
   */
  ghost predicate WasPruned(before: Nodes, after: Nodes, ci: bool) {
    IsPartOf(after, before) && forall p :: p in before ==> (p in after <==> Survives(before, after, p, ci))
  }

  // ---------------------------------------------------------------------------------------------
  // The stages, node by node

  lemma {:induction false} DroppedIsTree(nodes: Nodes, victims: set<Path>)
    requires IsTree(nodes)
    ensures IsTree(Dropped(nodes, victims))
  {
    forall q | q in Dropped(nodes, victims) && q != [] ensures !IsBelow(Parent(q), victims) {
      assert forall v :: v in victims && v <= Parent(q) ==> v <= q;
    }
  }

  lemma {:induction false} AfterTop(nodes: Nodes, p: Path)
    requires IsTree(nodes) && p in nodes
    ensures p in Dropped(nodes, TopVictims(nodes)) <==> p == [] || IsCacheEntry(nodes, p[0])
  {
    if p != [] {
      AncestorsExist(nodes, p[..1], p);
      assert p[..1] == [p[0]];
      assert IsBelow(p, TopVictims(nodes)) <==> [p[0]] in TopVictims(nodes) by {
        if v :| v in TopVictims(nodes) && v <= p {
          assert v == [p[0]];
        }
      }
    }
  }

  lemma {:induction false} AfterEnvironments(nodes: Nodes, p: Path)
    requires IsTree(nodes) && p in nodes
    ensures p in Dropped(nodes, EnvironmentVictims(nodes)) <==> !(|p| > 1 && p[0] == "environments-v2")
  {
    if |p| > 1 && p[0] == ENVIRONMENTS {
      AncestorsExist(nodes, p[..2], p);
      assert p[..2] in EnvironmentVictims(nodes) && p[..2] <= p;
    }
  }

  lemma {:induction false} AfterWheels(nodes: Nodes, p: Path)
    requires IsTree(nodes) && p in nodes
    ensures |p| > 1 ==> p[..2] in nodes
    ensures p in Dropped(nodes, WheelVictims(nodes)) <==> !(|p| > 1 && p[0] == "wheels-v5" && nodes[p[..2]].Dir?)
  {
    if |p| > 1 {
      AncestorsExist(nodes, p[..2], p);
      assert IsBelow(p, WheelVictims(nodes)) <==> p[..2] in WheelVictims(nodes) by {
        if v :| v in WheelVictims(nodes) && v <= p {
          assert v == p[..2];
        }
      }
    }
  }

  lemma {:induction false} VictimIsUnpacked(nodes: Nodes, p: Path)
    requires p in nodes && |p| >= 2
    ensures IsSdistVictim(nodes, p) <==> p[0] == "sdists-v9" && IsUnpacked(nodes, p)
  {
    NamesAgree(p[|p| - 1]);
  }

  lemma {:induction false} AfterSdists(nodes: Nodes, p: Path)
    requires IsTree(nodes) && p in nodes
    ensures p in Dropped(nodes, SdistVictims(nodes)) <==>
      !(p != [] && p[0] == "sdists-v9" && exists n :: 2 <= n <= |p| && IsUnpacked(nodes, p[..n]))
  {
    if IsBelow(p, SdistVictims(nodes)) {
      var v :| v in SdistVictims(nodes) && v <= p;
      VictimIsUnpacked(nodes, v);
      assert p[..|v|] == v;
    }
    if p != [] && p[0] == "sdists-v9" {
      forall n | 2 <= n <= |p| && IsUnpacked(nodes, p[..n]) ensures IsBelow(p, SdistVictims(nodes)) {
        AncestorsExist(nodes, p[..n], p);
        VictimIsUnpacked(nodes, p[..n]);
        assert p[..n] in SdistVictims(nodes) && p[..n] <= p;
      }
    }
  }

  lemma {:induction false} ScannedIff(p: Path)
    ensures InLinkBucket(p) && IsScanned(p) <==>
      p != [] && p[0] in {"wheels-v5", "sdists-v9"} && forall i :: 1 <= i < |p| ==> !IsPassedOver(p[i])
  {
    forall i | 1 <= i < |p| ensures IsFiltered(p[i]) <==> IsPassedOver(p[i]) {
      NamesAgree(p[i]);
    }
  }

  lemma {:induction false} ReferenceIff(nodes: Nodes, id: string)
    requires Archive(id) in nodes
    ensures IsReferenced(nodes, id) <==> exists link :: IsLiveLink(nodes, link, id)
  {
    forall link ensures IsReference(nodes, link, id) <==> IsLiveLink(nodes, link, id) {
      ScannedIff(link);
    }
  }

  lemma {:induction false} LinkStays(nodes: Nodes, link: Path)
    ensures link in nodes && link != [] && link[0] in {"wheels-v5", "sdists-v9"} ==>
      link in Dropped(nodes, ArchiveVictims(nodes))
  {
    if link != [] && link[0] in {"wheels-v5", "sdists-v9"} {
      assert forall v :: v in ArchiveVictims(nodes) ==> v[0] != link[0];
    }
  }

  lemma {:induction false} AfterArchives(nodes: Nodes, p: Path)
    requires IsTree(nodes) && p in nodes
    ensures var after := Dropped(nodes, ArchiveVictims(nodes));
      p in after <==> (|p| > 1 && p[0] == "archive-v0" ==> exists link :: IsLiveLink(after, link, p[1]))
  {
    var after := Dropped(nodes, ArchiveVictims(nodes));
    if |p| > 1 && p[0] == ARCHIVE {
      AncestorsExist(nodes, p[..2], p);
      assert p[..2] == Archive(p[1]);
      assert IsBelow(p, ArchiveVictims(nodes)) <==> p[..2] in ArchiveVictims(nodes) by {
        if v :| v in ArchiveVictims(nodes) && v <= p {
          assert v == p[..2];
        }
      }
      ReferenceIff(nodes, p[1]);
      forall link ensures IsLiveLink(nodes, link, p[1]) <==> IsLiveLink(after, link, p[1]) {
        LinkStays(nodes, link);
      }
    }
  }

  lemma {:induction false} AfterUnzipping(nodes: Nodes, p: Path)
    requires IsTree(nodes) && p in nodes
    ensures p in WithoutWheels(nodes) <==>
      && (|p| > 1 && p[0] == "wheels-v5" ==> p[..2] in nodes && !nodes[p[..2]].Dir?)
      && (p != [] && p[0] == "sdists-v9" ==> forall n :: 2 <= n <= |p| ==> !IsUnpacked(nodes, p[..n]))
  {
    var wheels := Dropped(nodes, WheelVictims(nodes));
    AfterWheels(nodes, p);
    if p in wheels {
      DroppedIsTree(nodes, WheelVictims(nodes));
      AfterSdists(wheels, p);
      if p != [] && p[0] == SDISTS {
        forall n | 2 <= n <= |p| ensures IsUnpacked(wheels, p[..n]) <==> IsUnpacked(nodes, p[..n]) {
          SameSdists(nodes, p[..n - 1] + ["metadata.msgpack"]);
          assert p[..n][..n - 1] == p[..n - 1];
        }
      }
    }
  }

  lemma {:induction false} SameSdists(nodes: Nodes, p: Path)
    requires p != [] && p[0] == SDISTS
    ensures p in Dropped(nodes, WheelVictims(nodes)) <==> p in nodes
  {
    assert forall v :: v in WheelVictims(nodes) ==> v[0] != p[0];
  }

  lemma {:induction false} AfterTidying(nodes: Nodes, p: Path)
    requires IsTree(nodes) && p in nodes
    ensures p in Tidied(nodes) <==>
      p == [] || (IsCacheEntry(nodes, p[0]) && !(|p| > 1 && p[0] == "environments-v2"))
    ensures IsTree(Tidied(nodes))
  {
    var top := Dropped(nodes, TopVictims(nodes));
    AfterTop(nodes, p);
    DroppedIsTree(nodes, TopVictims(nodes));
    DroppedIsTree(top, EnvironmentVictims(top));
    if p in top {
      AfterEnvironments(top, p);
    }
  }

  /** Tidying leaves the two buckets with links as they are, or takes them away as a whole. */
  lemma {:induction false} TidyingKeepsBuckets(nodes: Nodes, name: string, p: Path)
    requires IsTree(nodes) && (name == WHEELS || name == SDISTS) && IsCacheEntry(nodes, name)
    requires p != [] && p[0] == name
    ensures p in Tidied(nodes) <==> p in nodes
  {
    if p in nodes {
      AfterTidying(nodes, p);
    }
  }

  lemma {:induction false} UnzippedNode(before: Nodes, p: Path, ci: bool)
    requires IsTree(before) && p in before && !(|p| > 1 && p[0] == ARCHIVE)
    ensures p in Unzipped(before, ci) <==> Survives(before, map[], p, ci)
  {
    var tidy := Tidied(before);
    AfterTidying(before, p);
    if p in tidy && ci {
      AfterUnzipping(tidy, p);
      if |p| > 1 && p[0] == WHEELS {
        TidyingKeepsBuckets(before, WHEELS, p[..2]);
      }
      if p != [] && p[0] == SDISTS {
        forall n | 2 <= n <= |p| ensures IsUnpacked(tidy, p[..n]) <==> IsUnpacked(before, p[..n]) {
          TidyingKeepsBuckets(before, SDISTS, p[..n][..n - 1] + ["metadata.msgpack"]);
        }
      }
    }
  }

  lemma {:induction false} PrunedNode(before: Nodes, p: Path, ci: bool)
    requires IsTree(before) && p in before
    ensures p in Pruned(before, ci) <==> Survives(before, Pruned(before, ci), p, ci)
  {
    var unzipped := Unzipped(before, ci);
    UnzippedIsTree(before, ci);
    if |p| > 1 && p[0] == ARCHIVE {
      ArchiveIsUnzipped(before, p, ci);
    } else {
      UnzippedNode(before, p, ci);
    }
    if p in unzipped {
      AfterArchives(unzipped, p);
    }
  }

  lemma {:induction false} ArchiveIsUnzipped(before: Nodes, p: Path, ci: bool)
    requires IsTree(before) && p in before && p != [] && p[0] == ARCHIVE
    ensures p in Unzipped(before, ci) <==> IsCacheEntry(before, ARCHIVE)
  {
    AfterTidying(before, p);
    if p in Tidied(before) {
      AfterUnzipping(Tidied(before), p);
    }
  }

  lemma {:induction false} UnzippedIsTree(before: Nodes, ci: bool)
    requires IsTree(before)
    ensures IsTree(Unzipped(before, ci))
  {
    var top := Dropped(before, TopVictims(before));
    DroppedIsTree(before, TopVictims(before));
    DroppedIsTree(top, EnvironmentVictims(top));
    var tidy := Tidied(before);
    var wheels := Dropped(tidy, WheelVictims(tidy));
    DroppedIsTree(tidy, WheelVictims(tidy));
    DroppedIsTree(wheels, SdistVictims(wheels));
  }

  /** The stages of pruning together leave exactly the nodes that survive. */
  lemma {:induction false} StagesAgree(before: Nodes, ci: bool)
    requires IsTree(before)
    ensures WasPruned(before, Pruned(before, ci), ci)
  {
    forall p | p in before ensures p in Pruned(before, ci) <==> Survives(before, Pruned(before, ci), p, ci) {
      PrunedNode(before, p, ci);
    }
  }

  // ---------------------------------------------------------------------------------------------
  // What is left after removing a package

  /** The node lies at or below an entry of the package. */
  ghost predicate IsOfPackage(nodes: Nodes, p: Path, name: string, isMatch: Path -> bool) {
    || (p != [] && p[0] == "flat-index-v2")
    || (|p| > 2 && p[..2] in {["wheels-v5", "pypi"], ["sdists-v9", "pypi"]} && p[2] == name)
    || (|p| > 3 && p[..2] in {["wheels-v5", "index"], ["wheels-v5", "url"], ["sdists-v9", "index"]} && p[3] == name)
    || (|p| > 2 && p[..2] in {["sdists-v9", "url"], ["sdists-v9", "path"]}
        && exists v :: v in nodes && nodes[v].Dir? && |v| == 4 && v[..3] == p[..3] && isMatch(v))
    || (|p| > 3 && p[..2] == ["sdists-v9", "git"] && p[..4] in nodes && nodes[p[..4]].Dir? && isMatch(p[..4]))
    || (|p| > 2 && p[..2] == ["simple-v18", "pypi"] && p[2] == name + ".rkyv")
    || (|p| > 3 && p[..2] == ["simple-v18", "index"] && p[3] == name + ".rkyv")
  }

  /** The node belongs to an archive that links led to, all of which are gone. */
  ghost predicate IsOrphaned(before: Nodes, after: Nodes, p: Path) {
    && |p| > 1 && p[0] == "archive-v0" && (exists link :: IsLiveLink(before, link, p[1]))
    && forall link :: IsLiveLink(before, link, p[1]) ==> link !in after
  }

  /** Exactly the entries of the package and the archives that are orphaned by that are gone. */
  ghost predicate WasRemoved(before: Nodes, after: Nodes, name: string, isMatch: Path -> bool) {
    && IsPartOf(after, before)
    && forall p :: p in before ==>
         (p in after <==> !IsOfPackage(before, p, name, isMatch) && !IsOrphaned(before, after, p))
  }

  lemma {:induction false} EntryIsOfPackage(nodes: Nodes, v: Path, p: Path, name: string, isMatch: Path -> bool)
    requires v <= p && p in nodes && IsPackageEntry(nodes, v, name, isMatch)
    ensures IsOfPackage(nodes, p, name, isMatch)
  {
    assert p[..|v|] == v;
    if |v| > 2 {
      assert p[..2] == v[..2] == [v[0], v[1]] && p[2] == v[2];
    }
    if |v| == 3 && (v[1] == "url" || v[1] == "path") {
      var w :| w in nodes && |w| == |v| + 1 && v <= w && nodes[w].Dir? && isMatch(w);
      assert w[..3] == v == p[..3];
    }
  }

  lemma {:induction false} FirstNames(nodes: Nodes, p: Path)
    requires IsTree(nodes) && p in nodes
    ensures p != [] ==> [p[0]] in nodes && p[..1] == [p[0]]
    ensures |p| > 2 ==> p[..3] in nodes && p[..3] == p[..2] + [p[2]]
    ensures |p| > 3 ==> p[..4] in nodes && nodes[p[..3]].Dir? && p[..4][..3] == p[..3] && p[..4][..2] == p[..2]
  {
    if p != [] {
      AncestorsExist(nodes, p[..1], p);
      assert p[..1] == [p[0]];
    }
    if |p| > 2 {
      AncestorsExist(nodes, p[..3], p);
    }
    if |p| > 3 {
      AncestorsExist(nodes, p[..4], p);
    }
  }

  /** The entry of the package that a node lies at or below. */
  lemma {:induction false} EntryAbove(nodes: Nodes, p: Path, name: string, isMatch: Path -> bool) returns (v: Path)
    requires IsTree(nodes) && p in nodes && IsOfPackage(nodes, p, name, isMatch)
    ensures v in nodes && v <= p && IsPackageEntry(nodes, v, name, isMatch)
  {
    FirstNames(nodes, p);
    if p[0] == "flat-index-v2" {
      v := p[..1];
    } else if |p| > 2 && p[..2] in {["wheels-v5", "pypi"], ["sdists-v9", "pypi"]} && p[2] == name {
      v := p[..2] + [name];
    } else if |p| > 2 && p[..2] == ["simple-v18", "pypi"] && p[2] == name + ".rkyv" {
      v := p[..2] + [name + ".rkyv"];
    } else if |p| > 2 && p[..2] in {["sdists-v9", "url"], ["sdists-v9", "path"]} {
      v := p[..3];
      assert v[0] == p[..2][0] && v[1] == p[..2][1];
      var w :| w in nodes && nodes[w].Dir? && |w| == 4 && w[..3] == p[..3] && isMatch(w);
      AncestorsExist(nodes, v, w);
      assert HasMatch(nodes, v, isMatch);
    } else {
      v := p[..4];
      assert v[0] == p[..2][0] && v[1] == p[..2][1] && v[3] == p[3];
    }
  }

  lemma {:induction false} BelowEntryIff(nodes: Nodes, p: Path, name: string, isMatch: Path -> bool)
    requires IsTree(nodes) && p in nodes
    ensures IsBelow(p, PackageEntries(nodes, name, isMatch)) <==> IsOfPackage(nodes, p, name, isMatch)
  {
    var entries := PackageEntries(nodes, name, isMatch);
    if IsBelow(p, entries) {
      var v :| v in entries && v <= p;
      EntryIsOfPackage(nodes, v, p, name, isMatch);
    }
    if IsOfPackage(nodes, p, name, isMatch) {
      var v := EntryAbove(nodes, p, name, isMatch);
      assert v in entries;
    }
  }

  /** Archives are no entries, and links are no archives. */
  lemma {:induction false} OrphanIff(before: Nodes, middle: Nodes, p: Path)
    requires IsTree(before) && IsPartOf(middle, before) && p in before
    requires forall q :: q in before && q != [] && q[0] == ARCHIVE ==> q in middle
    ensures IsBelow(p, Orphans(before, middle)) <==> IsOrphaned(before, Dropped(middle, Orphans(before, middle)), p)
  {
    var orphans := Orphans(before, middle);
    var after := Dropped(middle, orphans);
    if |p| > 1 && p[0] == ARCHIVE {
      AncestorsExist(before, p[..2], p);
      assert p[..2] == Archive(p[1]);
      assert IsBelow(p, orphans) <==> p[..2] in orphans by {
        if v :| v in orphans && v <= p {
          assert v == p[..2];
        }
      }
      forall link ensures IsReference(before, link, p[1]) <==> IsLiveLink(before, link, p[1]) {
        ScannedIff(link);
      }
      forall link | IsLiveLink(before, link, p[1]) ensures link in after <==> link in middle {
        assert forall v :: v in orphans ==> v[0] != link[0];
      }
    }
  }

  lemma {:induction false} EntriesAreNoArchives(nodes: Nodes, name: string, isMatch: Path -> bool)
    ensures forall q :: q in nodes && q != [] && q[0] == ARCHIVE ==>
      q in Dropped(nodes, PackageEntries(nodes, name, isMatch))
  {
    var entries := PackageEntries(nodes, name, isMatch);
    forall q | q in nodes && q != [] && q[0] == ARCHIVE ensures !IsBelow(q, entries) {
      forall v | v in entries ensures !(v <= q) {
        assert v[0] != q[0];
      }
    }
  }

  /** Removing a package takes away exactly its entries and what they leave orphaned. */
  lemma {:induction false} RemovalAgrees(before: Nodes, name: string, isMatch: Path -> bool)
    requires IsTree(before)
    ensures WasRemoved(before, WithoutPackage(before, name, isMatch), name, isMatch)
  {
    var middle, after :=
      Dropped(before, PackageEntries(before, name, isMatch)), WithoutPackage(before, name, isMatch);
    EntriesAreNoArchives(before, name, isMatch);
    forall p | p in before
      ensures p in after <==> !IsOfPackage(before, p, name, isMatch) && !IsOrphaned(before, after, p)
    {
      BelowEntryIff(before, p, name, isMatch);
      OrphanIff(before, middle, p);
    }
  }
}
