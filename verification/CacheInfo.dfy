/**
 * Models the glob pass of `CacheInfo::from_directory` in crates/uv-cache-info/src/cache_info.rs:
 * one walk per group of globs, and a running maximum over the timestamps of the files found.
 */
module CacheInfo {
  import opened Wrappers
  import opened GlobTrie
  import opened GlobClustering

  /** A walk entry: the file, and its timestamp unless the entry is skipped with a warning. */
  datatype Entry = Entry(file: Path, timestamp: Option<int>)

  ghost predicate IsLatest(latest: Option<int>, stamps: set<int>) {
    match latest
    case None => stamps == {}
    case Some(t) => t in stamps && forall u :: u in stamps ==> u <= t
  }

  ghost function Stamps(entries: seq<Entry>): set<int> {
    set e | e in entries && e.timestamp.Some? :: e.timestamp.value
  }

  ghost function AllStamps(walks: seq<seq<Entry>>): set<int> {
    set w, e | w in walks && e in w && e.timestamp.Some? :: e.timestamp.value
  }

  /** The latest timestamp after visiting all entries of all walks, starting from `before`. */
  method LatestTimestamp(walks: seq<seq<Entry>>, before: Option<int>) returns (latest: Option<int>)
    ensures IsLatest(latest, AllStamps(walks) + (if before.Some? then {before.value} else {}))
  {
    latest := before;
    ghost var start := if before.Some? then {before.value} else {};
    for i := 0 to |walks|
      invariant IsLatest(latest, AllStamps(walks[..i]) + start)
    {
      latest := LatestOfWalk(walks[i], latest, AllStamps(walks[..i]) + start);
      AllStampsStep(walks, i);
    }
    assert walks[..|walks|] == walks;
  }

  method LatestOfWalk(walk: seq<Entry>, before: Option<int>, ghost seen: set<int>) returns (latest: Option<int>)
    requires IsLatest(before, seen)
    ensures IsLatest(latest, seen + Stamps(walk))
  {
    latest := before;
    for j := 0 to |walk|
      invariant IsLatest(latest, seen + Stamps(walk[..j]))
    {
      var entry := walk[j];
      StampsStep(walk, j);
      if entry.timestamp.Some? {
        if latest.None? || latest.value < entry.timestamp.value {
          latest := entry.timestamp;
        }
      }
    }
    assert walk[..|walk|] == walk;
  }

  lemma {:induction false} StampsStep(walk: seq<Entry>, j: nat)
    requires j < |walk|
    ensures Stamps(walk[..j + 1])
         == Stamps(walk[..j]) + (if walk[j].timestamp.Some? then {walk[j].timestamp.value} else {})
  {
    assert walk[..j + 1] == walk[..j] + [walk[j]];
  }

  lemma {:induction false} AllStampsStep(walks: seq<seq<Entry>>, i: nat)
    requires i < |walks|
    ensures AllStamps(walks[..i + 1]) == AllStamps(walks[..i]) + Stamps(walks[i])
  {
    assert walks[..i + 1] == walks[..i] + [walks[i]];
  }

  /**
   * How the glob walker selects files: `matches(base, pattern, file)` says that a walk from `base`
   * reports `file` for `pattern`. The one thing asked of it is that leading components of the
   * pattern that are ordinary names without glob characters stand for themselves.
   */
  ghost predicate ReadsLiterally(matches: (Path, Path, Path) -> bool) {
    forall base: Path, below: Path, pattern: Path, file: Path | AllNormal(below) && GlobFree(below) ::
      matches(base + below, pattern, file) <==> matches(base, below + pattern, file)
  }

  /** The walk of a group reports, in any order, the files that some pattern of it selects. */
  ghost predicate IsWalk(walk: seq<Entry>, g: Group, files: map<Path, Option<int>>,
                         matches: (Path, Path, Path) -> bool) {
    forall e: Entry :: e in walk <==>
      e.file in files && e.timestamp == files[e.file]
      && exists k :: 0 <= k < |g.patterns| && matches(g.base, g.patterns[k], e.file)
  }

  ghost predicate AreWalks(walks: seq<seq<Entry>>, groups: seq<Group>, files: map<Path, Option<int>>,
                           matches: (Path, Path, Path) -> bool) {
    |walks| == |groups| && forall i :: 0 <= i < |walks| ==> IsWalk(walks[i], groups[i], files, matches)
  }

  ghost predicate Visited(walks: seq<seq<Entry>>, e: Entry) {
    exists w :: w in walks && e in w
  }

  /** One group per glob, as if nothing were clustered. */
  function Unclustered(globs: seq<GlobParts>): seq<Group> {
    seq(|globs|, i requires 0 <= i < |globs| => Group(globs[i].base, [globs[i].pattern]))
  }

  /**
   * Walking the clusters visits the same entries, with the same timestamps, as walking for every
   * split glob on its own.
   */
  lemma {:induction false} ClusteredWalksFindTheSame(
    clusters: seq<Cluster>, globs: seq<GlobParts>, files: map<Path, Option<int>>,
    matches: (Path, Path, Path) -> bool, walks: seq<seq<Entry>>, single: seq<seq<Entry>>)
    requires IsClustering(clusters, globs) && ReadsLiterally(matches)
    requires forall i :: 0 <= i < |globs| ==> GlobFree(globs[i].base)
    requires AreWalks(walks, Render(clusters), files, matches)
    requires AreWalks(single, Unclustered(globs), files, matches)
    ensures forall e: Entry :: Visited(walks, e) <==> Visited(single, e)
  {
    forall e: Entry | Visited(walks, e) ensures Visited(single, e) {
      var w :| w in walks && e in w;
      var i :| 0 <= i < |walks| && walks[i] == w;
      var g := Render(clusters)[i];
      var k :| 0 <= k < |g.patterns| && matches(g.base, g.patterns[k], e.file);
      InMemberPattern(clusters, globs, i, k, matches, e.file);
      var j :| 0 <= j < |globs| && globs[j] == clusters[i].members[k];
      assert matches(Unclustered(globs)[j].base, Unclustered(globs)[j].patterns[0], e.file);
      assert e in single[j];
    }
    forall e: Entry | Visited(single, e) ensures Visited(walks, e) {
      var w :| w in single && e in w;
      var j :| 0 <= j < |single| && single[j] == w;
      assert matches(globs[j].base, globs[j].pattern, e.file);
      assert globs[j] in multiset(globs);
      var i, k := ClusterOfMember(clusters, globs[j]);
      InMemberPattern(clusters, globs, i, k, matches, e.file);
      assert e in walks[i];
    }
  }

  lemma {:induction false} InMemberPattern(clusters: seq<Cluster>, globs: seq<GlobParts>, i: nat, k: nat,
                        matches: (Path, Path, Path) -> bool, file: Path)
    requires IsClustering(clusters, globs) && ReadsLiterally(matches)
    requires forall i :: 0 <= i < |globs| ==> GlobFree(globs[i].base)
    requires i < |clusters| && k < |clusters[i].members|
    ensures var m := clusters[i].members[k];
      m in globs
      && (matches(m.base, m.pattern, file)
          <==> matches(clusters[i].base, Render(clusters)[i].patterns[k], file))
  {
    var c, m := clusters[i], clusters[i].members[k];
    MemberOfCluster(clusters, i, k);
    assert m in multiset(globs);
    var below := m.base[|c.base|..];
    assert IsCluster(c) && Reaches(c.base, m.base);
    assert m.base == c.base + below;
    assert GlobFree(below);
    assert Render(clusters)[i].patterns[k] == below + m.pattern;
  }

  /** The clustered pass therefore computes the same timestamp as one walk per glob would. */
  lemma {:induction false} LatestIsClusteringIndependent(
    clusters: seq<Cluster>, globs: seq<GlobParts>, files: map<Path, Option<int>>,
    matches: (Path, Path, Path) -> bool, walks: seq<seq<Entry>>, single: seq<seq<Entry>>,
    before: set<int>, latest: Option<int>, latest': Option<int>)
    requires IsClustering(clusters, globs) && ReadsLiterally(matches)
    requires forall i :: 0 <= i < |globs| ==> GlobFree(globs[i].base)
    requires AreWalks(walks, Render(clusters), files, matches)
    requires AreWalks(single, Unclustered(globs), files, matches)
    requires IsLatest(latest, AllStamps(walks) + before) && IsLatest(latest', AllStamps(single) + before)
    ensures latest == latest'
  {
    ClusteredWalksFindTheSame(clusters, globs, files, matches, walks, single);
    SameStamps(walks, single);
  }

  lemma {:induction false} SameStamps(walks: seq<seq<Entry>>, single: seq<seq<Entry>>)
    requires forall e: Entry :: Visited(walks, e) <==> Visited(single, e)
    ensures AllStamps(walks) == AllStamps(single)
  {
    forall t | t in AllStamps(walks) ensures t in AllStamps(single) {
      var w, e :| w in walks && e in w && e.timestamp == Some(t);
      assert Visited(walks, e);
    }
    forall t | t in AllStamps(single) ensures t in AllStamps(walks) {
      var w, e :| w in single && e in w && e.timestamp == Some(t);
      assert Visited(single, e);
    }
  }
}
