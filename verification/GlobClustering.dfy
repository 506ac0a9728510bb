/**
 * Models the second half of crates/uv-cache-info/src/glob.rs: the two mutually recursive
 * collectors read the trie back as groups of patterns, one group per directory to walk.
 */
module GlobClustering {
  import opened GlobTrie

  /** One walk: the directory to start from and the patterns to look for, relative to it. */
  datatype Group = Group(base: Path, patterns: seq<Path>)

  // ---------------------------------------------------------------------------------------------
  // What a clustering of split globs is

  /** A group together with the split globs that it stands for. */
  datatype Cluster = Cluster(base: Path, members: seq<GlobParts>)

  ghost function Members(clusters: seq<Cluster>): seq<GlobParts> {
    if clusters == [] then [] else
      Members(clusters[..|clusters| - 1]) + clusters[|clusters| - 1].members
  }

  function Drop(p: Path, k: nat): Path {
    if k <= |p| then p[k..] else []
  }

  /** The patterns of the members, seen from `k` components below the root. */
  function Patterns(members: seq<GlobParts>, k: nat): seq<Path> {
    seq(|members|, i requires 0 <= i < |members| => Drop(members[i].base, k) + members[i].pattern)
  }

  function Render(clusters: seq<Cluster>): seq<Group> {
    seq(|clusters|, i requires 0 <= i < |clusters| =>
      Group(clusters[i].base, Patterns(clusters[i].members, |clusters[i].base|)))
  }

  /** `b` is reached from `a` through ordinary directories only. */
  predicate Reaches(a: Path, b: Path) {
    a <= b && AllNormal(b[|a|..])
  }

  /** The base is a split base itself and every other one lies below it in ordinary directories. */
  predicate IsCluster(c: Cluster) {
    && (exists i :: 0 <= i < |c.members| && c.members[i].base == c.base)
    && (forall i :: 0 <= i < |c.members| ==> Reaches(c.base, c.members[i].base))
  }

  predicate Separate(c: Cluster, d: Cluster) {
    !Reaches(c.base, d.base) && !Reaches(d.base, c.base)
  }

  predicate PairwiseSeparate(clusters: seq<Cluster>) {
    forall i, j :: 0 <= i < j < |clusters| ==> Separate(clusters[i], clusters[j])
  }

  /** Every split glob belongs to exactly one cluster, and no two clusters share a directory. */
  ghost predicate IsClustering(clusters: seq<Cluster>, globs: seq<GlobParts>) {
    && multiset(Members(clusters)) == multiset(globs)
    && (forall i :: 0 <= i < |clusters| ==> IsCluster(clusters[i]))
    && PairwiseSeparate(clusters)
  }

  // ---------------------------------------------------------------------------------------------
  // The clusters of a trie

  /** The entries that `CollectPatterns` pushes: all those below `t` through normal edges. */
  ghost function Gathered(t: Trie, at: Path): seq<GlobParts>
    decreases t
  {
    Own(t.patterns, at) + GatheredBelow(t.children, at)
  }

  ghost function EdgeGathered(edge: Edge, at: Path): seq<GlobParts>
    decreases edge
  {
    if edge.part.Normal? then Gathered(edge.child, at + [edge.part]) else []
  }

  ghost function GatheredBelow(children: seq<Edge>, at: Path): seq<GlobParts>
    decreases children
  {
    if children == [] then [] else
      GatheredBelow(children[..|children| - 1], at) + EdgeGathered(children[|children| - 1], at)
  }

  /** The clusters that `CollectPatterns` starts at the edges that are not normal. */
  ghost function EdgeSpawned(edge: Edge, at: Path): seq<Cluster>
    decreases edge
  {
    if edge.part.Normal? then SpawnedBelow(edge.child.children, at + [edge.part])
    else Clusters(edge.child, at + [edge.part])
  }

  ghost function SpawnedBelow(children: seq<Edge>, at: Path): seq<Cluster>
    decreases children
  {
    if children == [] then [] else
      SpawnedBelow(children[..|children| - 1], at) + EdgeSpawned(children[|children| - 1], at)
  }

  /** The clusters that `CollectGroups` pushes. */
  ghost function Clusters(t: Trie, at: Path): seq<Cluster>
    decreases t
  {
    if t.patterns == [] then ClustersBelow(t.children, at)
    else SpawnedBelow(t.children, at) + [Cluster(at, Gathered(t, at))]
  }

  ghost function EdgeClusters(edge: Edge, at: Path): seq<Cluster>
    decreases edge
  {
    Clusters(edge.child, at + [edge.part])
  }

  ghost function ClustersBelow(children: seq<Edge>, at: Path): seq<Cluster>
    decreases children
  {
    if children == [] then [] else
      ClustersBelow(children[..|children| - 1], at) + EdgeClusters(children[|children| - 1], at)
  }

  // ---------------------------------------------------------------------------------------------
  // Conservation

  lemma {:induction false} MembersConcat(a: seq<Cluster>, b: seq<Cluster>)
    ensures Members(a + b) == Members(a) + Members(b)
    decreases |b|
  {
    if b == [] {
      assert a + b == a;
    } else {
      var n := |b| - 1;
      assert (a + b)[..|a| + n] == a + b[..n];
      MembersConcat(a, b[..n]);
    }
  }

  lemma {:induction false} ClustersConserve(t: Trie, at: Path)
    ensures multiset(Members(Clusters(t, at))) == multiset(Entries(t, at))
    decreases t
  {
    if t.patterns == [] {
      ClustersBelowConserve(t.children, at);
    } else {
      SpawnedConserve(t.children, at);
      var pivot := Cluster(at, Gathered(t, at));
      MembersConcat(SpawnedBelow(t.children, at), [pivot]);
      assert Members([pivot]) == Gathered(t, at);
    }
  }

  lemma {:induction false} ClustersBelowConserve(children: seq<Edge>, at: Path)
    ensures multiset(Members(ClustersBelow(children, at))) == multiset(EntriesBelow(children, at))
    decreases children
  {
    if children != [] {
      var n := |children| - 1;
      ClustersBelowConserve(children[..n], at);
      EdgeClustersConserve(children[n], at);
      MembersConcat(ClustersBelow(children[..n], at), EdgeClusters(children[n], at));
    }
  }

  lemma {:induction false} EdgeClustersConserve(edge: Edge, at: Path)
    ensures multiset(Members(EdgeClusters(edge, at))) == multiset(EdgeEntries(edge, at))
    decreases edge
  {
    ClustersConserve(edge.child, at + [edge.part]);
  }

  lemma {:induction false} SpawnedConserve(children: seq<Edge>, at: Path)
    ensures multiset(GatheredBelow(children, at)) + multiset(Members(SpawnedBelow(children, at)))
         == multiset(EntriesBelow(children, at))
    decreases children
  {
    if children != [] {
      var n := |children| - 1;
      SpawnedConserve(children[..n], at);
      EdgeSpawnedConserve(children[n], at);
      MembersConcat(SpawnedBelow(children[..n], at), EdgeSpawned(children[n], at));
    }
  }

  lemma {:induction false} EdgeSpawnedConserve(edge: Edge, at: Path)
    ensures multiset(EdgeGathered(edge, at)) + multiset(Members(EdgeSpawned(edge, at)))
         == multiset(EdgeEntries(edge, at))
    decreases edge
  {
    if edge.part.Normal? {
      SpawnedConserve(edge.child.children, at + [edge.part]);
    } else {
      ClustersConserve(edge.child, at + [edge.part]);
    }
  }

  // ---------------------------------------------------------------------------------------------
  // Shape and separation

  /** Clusters whose bases all lie below one of the children of the node at `at`. */
  ghost predicate Under(clusters: seq<Cluster>, children: seq<Edge>, at: Path) {
    forall i :: 0 <= i < |clusters| ==>
      IsCluster(clusters[i])
      && exists j :: 0 <= j < |children| && at + [children[j].part] <= clusters[i].base
  }

  /** Clusters at or below the path `at`. */
  ghost predicate From(clusters: seq<Cluster>, at: Path) {
    forall i :: 0 <= i < |clusters| ==> IsCluster(clusters[i]) && at <= clusters[i].base
  }

  /** Clusters that are not reached from `at` through ordinary directories. */
  ghost predicate Detached(clusters: seq<Cluster>, at: Path) {
    forall i :: 0 <= i < |clusters| ==> !Reaches(at, clusters[i].base)
  }

  ghost predicate ReachedFrom(members: seq<GlobParts>, at: Path) {
    forall i :: 0 <= i < |members| ==> Reaches(at, members[i].base)
  }

  lemma {:induction false} GatheredShape(t: Trie, at: Path)
    ensures ReachedFrom(Gathered(t, at), at)
    decreases t
  {
    GatheredBelowShape(t.children, at);
  }

  lemma {:induction false} EdgeGatheredShape(edge: Edge, at: Path)
    ensures ReachedFrom(EdgeGathered(edge, at), at)
    decreases edge
  {
    if edge.part.Normal? {
      GatheredShape(edge.child, at + [edge.part]);
      forall i | 0 <= i < |EdgeGathered(edge, at)| ensures Reaches(at, EdgeGathered(edge, at)[i].base) {
        ReachesStep(at, edge.part, EdgeGathered(edge, at)[i].base);
      }
    }
  }

  lemma {:induction false} GatheredBelowShape(children: seq<Edge>, at: Path)
    ensures ReachedFrom(GatheredBelow(children, at), at)
    decreases children
  {
    if children != [] {
      GatheredBelowShape(children[..|children| - 1], at);
      EdgeGatheredShape(children[|children| - 1], at);
    }
  }

  /** Going through one more edge keeps reachability exactly when the edge is normal. */
  lemma {:induction false} ReachesStep(at: Path, part: Component, base: Path)
    requires at + [part] <= base
    ensures at <= base
    ensures Reaches(at, base) <==> part.Normal? && Reaches(at + [part], base)
  {
    assert base[|at|..] == [part] + base[|at| + 1..];
    assert base[|at| + 1..] == base[|at|..][1..];
    assert base[|at|] == part;
    if AllNormal(base[|at|..]) {
      assert base[|at|..][0].Normal?;
    }
  }

  lemma {:induction false} ClustersShape(t: Trie, at: Path)
    requires Sorted(t)
    ensures From(Clusters(t, at), at) && PairwiseSeparate(Clusters(t, at))
    decreases t
  {
    if t.patterns == [] {
      ClustersBelowShape(t.children, at);
    } else {
      SpawnedShape(t.children, at);
      GatheredShape(t, at);
      var pivot := Cluster(at, Gathered(t, at));
      assert pivot.members[0] == GlobParts(at, t.patterns[0]);
      assert IsCluster(pivot);
      forall i | 0 <= i < |SpawnedBelow(t.children, at)|
        ensures Separate(SpawnedBelow(t.children, at)[i], pivot)
      {
        assert |SpawnedBelow(t.children, at)[i].base| > |at|;
      }
    }
  }

  lemma {:induction false} EdgeClustersShape(edge: Edge, at: Path)
    requires Sorted(edge.child)
    ensures From(EdgeClusters(edge, at), at + [edge.part]) && PairwiseSeparate(EdgeClusters(edge, at))
    decreases edge
  {
    ClustersShape(edge.child, at + [edge.part]);
  }

  lemma {:induction false} ClustersBelowShape(children: seq<Edge>, at: Path)
    requires Ascending(children)
    requires forall i :: 0 <= i < |children| ==> Sorted(children[i].child)
    ensures Under(ClustersBelow(children, at), children, at) && PairwiseSeparate(ClustersBelow(children, at))
    decreases children
  {
    if children != [] {
      var n := |children| - 1;
      ClustersBelowShape(children[..n], at);
      EdgeClustersShape(children[n], at);
      SiblingsSeparate(ClustersBelow(children[..n], at), EdgeClusters(children[n], at), children, at);
    }
  }

  lemma {:induction false} SpawnedShape(children: seq<Edge>, at: Path)
    requires Ascending(children)
    requires forall i :: 0 <= i < |children| ==> Sorted(children[i].child)
    ensures Under(SpawnedBelow(children, at), children, at) && PairwiseSeparate(SpawnedBelow(children, at))
    ensures Detached(SpawnedBelow(children, at), at)
    decreases children
  {
    if children != [] {
      var n := |children| - 1;
      SpawnedShape(children[..n], at);
      EdgeSpawnedShape(children[n], at);
      SiblingsSeparate(SpawnedBelow(children[..n], at), EdgeSpawned(children[n], at), children, at);
    }
  }

  lemma {:induction false} EdgeSpawnedShape(edge: Edge, at: Path)
    requires Sorted(edge.child)
    ensures From(EdgeSpawned(edge, at), at + [edge.part]) && PairwiseSeparate(EdgeSpawned(edge, at))
    ensures Detached(EdgeSpawned(edge, at), at)
    decreases edge
  {
    var below := at + [edge.part];
    if edge.part.Normal? {
      SpawnedShape(edge.child.children, below);
    } else {
      ClustersShape(edge.child, below);
    }
    forall i | 0 <= i < |EdgeSpawned(edge, at)| ensures !Reaches(at, EdgeSpawned(edge, at)[i].base) {
      assert below <= EdgeSpawned(edge, at)[i].base;
      ReachesStep(at, edge.part, EdgeSpawned(edge, at)[i].base);
    }
  }

  /** Clusters below different edges of one node cannot be prefixes of each other. */
  lemma {:induction false} SiblingsSeparate(left: seq<Cluster>, right: seq<Cluster>, children: seq<Edge>, at: Path)
    requires children != [] && Ascending(children)
    requires Under(left, children[..|children| - 1], at) && PairwiseSeparate(left)
    requires From(right, at + [children[|children| - 1].part]) && PairwiseSeparate(right)
    ensures Under(left + right, children, at) && PairwiseSeparate(left + right)
  {
    var n := |children| - 1;
    forall i, k | 0 <= i < |left| && 0 <= k < |right| ensures Separate(left[i], right[k]) {
      var j :| 0 <= j < n && at + [children[..n][j].part] <= left[i].base;
      SortedPartsDiffer(children, j, n);
      assert left[i].base[|at|] == children[j].part;
      assert right[k].base[|at|] == children[n].part;
    }
    forall i | 0 <= i < |left + right|
      ensures exists j :: 0 <= j < |children| && at + [children[j].part] <= (left + right)[i].base
    {
      if i < |left| {
        var j :| 0 <= j < n && at + [children[..n][j].part] <= left[i].base;
        assert at + [children[j].part] <= (left + right)[i].base;
      } else {
        assert at + [children[n].part] <= (left + right)[i].base;
      }
    }
  }

  // ---------------------------------------------------------------------------------------------
  // The collectors

  lemma {:induction false} PatternsConcat(a: seq<GlobParts>, b: seq<GlobParts>, k: nat)
    ensures Patterns(a + b, k) == Patterns(a, k) + Patterns(b, k)
  {
  }

  lemma {:induction false} RenderConcat(a: seq<Cluster>, b: seq<Cluster>)
    ensures Render(a + b) == Render(a) + Render(b)
  {
  }

  lemma {:induction false} ClustersStep(groups: seq<Group>, children: seq<Edge>, i: nat, at: Path)
    requires i < |children|
    ensures groups + Render(ClustersBelow(children[..i + 1], at))
         == groups + Render(ClustersBelow(children[..i], at)) + Render(EdgeClusters(children[i], at))
  {
    assert children[..i + 1][..i] == children[..i];
    RenderConcat(ClustersBelow(children[..i], at), EdgeClusters(children[i], at));
  }

  lemma {:induction false} GatheredStep(patterns: seq<Path>, children: seq<Edge>, i: nat, at: Path, k: nat)
    requires i < |children|
    ensures patterns + Patterns(GatheredBelow(children[..i + 1], at), k)
         == patterns + Patterns(GatheredBelow(children[..i], at), k) + Patterns(EdgeGathered(children[i], at), k)
  {
    assert children[..i + 1][..i] == children[..i];
    PatternsConcat(GatheredBelow(children[..i], at), EdgeGathered(children[i], at), k);
  }

  lemma {:induction false} SpawnedStep(groups: seq<Group>, children: seq<Edge>, i: nat, at: Path)
    requires i < |children|
    ensures groups + Render(SpawnedBelow(children[..i + 1], at))
         == groups + Render(SpawnedBelow(children[..i], at)) + Render(EdgeSpawned(children[i], at))
  {
    assert children[..i + 1][..i] == children[..i];
    RenderConcat(SpawnedBelow(children[..i], at), EdgeSpawned(children[i], at));
  }

  lemma {:induction false} RenderPivot(t: Trie, at: Path)
    requires t.patterns != []
    ensures Render(Clusters(t, at))
         == Render(SpawnedBelow(t.children, at)) + [Group(at, Patterns(Gathered(t, at), |at|))]
  {
    var pivot := Cluster(at, Gathered(t, at));
    assert Render([pivot]) == [Group(at, Patterns(Gathered(t, at), |at|))];
    RenderConcat(SpawnedBelow(t.children, at), [pivot]);
  }

  method CollectPatterns(t: Trie, patternPrefix: Path, groupPrefix: Path, patterns: seq<Path>, groups: seq<Group>,
                         ghost base: Path)
    returns (patterns': seq<Path>, groups': seq<Group>)
    requires Rooted(t, groupPrefix == []) && groupPrefix == base + patternPrefix
    ensures patterns' == patterns + Patterns(Gathered(t, groupPrefix), |base|)
    ensures groups' == groups + Render(SpawnedBelow(t.children, groupPrefix))
    decreases t, 0
  {
    patterns' := CollectOwn(t.patterns, patternPrefix, groupPrefix, patterns, base);
    patterns', groups' := CollectChildren(t.children, patternPrefix, groupPrefix, patterns', groups, base);
    GatheredPatterns(patterns, t, groupPrefix, |base|);
  }

  /** The loop over the children of one node in `CollectPatterns`. */
  method CollectChildren(children: seq<Edge>, patternPrefix: Path, groupPrefix: Path, patterns: seq<Path>,
                         groups: seq<Group>, ghost base: Path)
    returns (patterns': seq<Path>, groups': seq<Group>)
    requires forall i :: 0 <= i < |children| ==> Rooted(children[i].child, false)
    requires forall i :: 0 <= i < |children| ==> children[i].part.RootDir? ==> groupPrefix == []
    requires groupPrefix == base + patternPrefix
    ensures patterns' == patterns + Patterns(GatheredBelow(children, groupPrefix), |base|)
    ensures groups' == groups + Render(SpawnedBelow(children, groupPrefix))
    decreases children
  {
    var ps, gs := patterns, groups;
    for i := 0 to |children|
      invariant ps == patterns + Patterns(GatheredBelow(children[..i], groupPrefix), |base|)
      invariant gs == groups + Render(SpawnedBelow(children[..i], groupPrefix))
    {
      ps, gs := CollectEdge(children[i], patternPrefix, groupPrefix, ps, gs, base);
      GatheredStep(patterns, children, i, groupPrefix, |base|);
      SpawnedStep(groups, children, i, groupPrefix);
    }
    assert children[..|children|] == children;
    return ps, gs;
  }

  lemma {:induction false} GatheredPatterns(patterns: seq<Path>, t: Trie, at: Path, k: nat)
    ensures patterns + Patterns(Gathered(t, at), k)
         == patterns + Patterns(Own(t.patterns, at), k) + Patterns(GatheredBelow(t.children, at), k)
  {
    PatternsConcat(Own(t.patterns, at), GatheredBelow(t.children, at), k);
  }

  /** The loop over the patterns of one node in `CollectPatterns`. */
  method CollectOwn(own: seq<Path>, patternPrefix: Path, ghost groupPrefix: Path, patterns: seq<Path>, ghost base: Path)
    returns (patterns': seq<Path>)
    requires forall i :: 0 <= i < |own| ==> Relative(own[i])
    requires groupPrefix == base + patternPrefix
    ensures patterns' == patterns + Patterns(Own(own, groupPrefix), |base|)
  {
    ghost var all := Patterns(Own(own, groupPrefix), |base|);
    patterns' := patterns;
    for i := 0 to |own|
      invariant patterns' == patterns + all[..i]
    {
      patterns' := patterns' + [Join(patternPrefix, own[i])];
      assert all[..i + 1] == all[..i] + [all[i]];
    }
  }

  /** The body of the loop over the children in `CollectPatterns`. */
  method CollectEdge(edge: Edge, patternPrefix: Path, groupPrefix: Path, patterns: seq<Path>, groups: seq<Group>,
                     ghost base: Path)
    returns (patterns': seq<Path>, groups': seq<Group>)
    requires Rooted(edge.child, false) && groupPrefix == base + patternPrefix
    requires edge.part.RootDir? ==> groupPrefix == []
    ensures patterns' == patterns + Patterns(EdgeGathered(edge, groupPrefix), |base|)
    ensures groups' == groups + Render(EdgeSpawned(edge, groupPrefix))
    decreases edge
  {
    var next := Join(groupPrefix, [edge.part]);
    assert next == groupPrefix + [edge.part];
    if edge.part.Normal? {
      assert next == base + Join(patternPrefix, [edge.part]);
      patterns', groups' := CollectPatterns(edge.child, Join(patternPrefix, [edge.part]), next, patterns, groups, base);
    } else {
      patterns' := patterns;
      groups' := CollectGroups(edge.child, next, groups);
    }
  }

  method CollectGroups(t: Trie, prefix: Path, groups: seq<Group>) returns (groups': seq<Group>)
    requires Rooted(t, prefix == [])
    ensures groups' == groups + Render(Clusters(t, prefix))
    decreases t, 1
  {
    groups' := groups;
    if t.patterns == [] {
      for i := 0 to |t.children|
        invariant groups' == groups + Render(ClustersBelow(t.children[..i], prefix))
      {
        ClustersStep(groups, t.children, i, prefix);
        assert Join(prefix, [t.children[i].part]) == prefix + [t.children[i].part];
        groups' := CollectGroups(t.children[i].child, Join(prefix, [t.children[i].part]), groups');
      }
      assert t.children[..|t.children|] == t.children;
    } else {
      var group;
      group, groups' := CollectPatterns(t, [], prefix, [], groups', prefix);
      assert group == Patterns(Gathered(t, prefix), |prefix|);
      groups' := groups' + [Group(prefix, group)];
      RenderPivot(t, prefix);
    }
  }

  // ---------------------------------------------------------------------------------------------
  // Clustering

  /** The whole glob that a group pattern stands for. */
  function FullPaths(groups: seq<Group>): seq<Path> {
    if groups == [] then [] else
      FullPaths(groups[..|groups| - 1]) + Fulls(groups[|groups| - 1])
  }

  function Fulls(g: Group): seq<Path> {
    seq(|g.patterns|, i requires 0 <= i < |g.patterns| => g.base + g.patterns[i])
  }

  function RebuiltAll(patterns: seq<Path>): seq<Path> {
    seq(|patterns|, i requires 0 <= i < |patterns| => Rebuilt(patterns[i]))
  }

  /**
   * The groups are a clustering of the split globs. In particular no glob is lost, duplicated or
   * changed, apart from a `.` that is not its last component.
   */
  method ClusterGlobs(patterns: seq<Path>)
    returns (groups: seq<Group>, ghost clusters: seq<Cluster>, ghost globs: seq<GlobParts>)
    requires forall i :: 0 <= i < |patterns| ==> WellFormed(patterns[i])
    ensures |globs| == |patterns| && forall i :: 0 <= i < |patterns| ==> IsSplit(patterns[i], globs[i])
    ensures IsClustering(clusters, globs)
    ensures groups == Render(clusters)
    ensures multiset(FullPaths(groups)) == multiset(RebuiltAll(patterns))
  {
    var split := SplitAll(patterns);
    var trie := BuildTrie(patterns, split);
    groups := CollectGroups(trie, [], []);
    clusters, globs := Clusters(trie, []), split;
    ClustersConserve(trie, []);
    ClustersShape(trie, []);
    FullPathsConserved(clusters, globs, patterns);
  }

  method SplitAll(patterns: seq<Path>) returns (split: seq<GlobParts>)
    requires forall i :: 0 <= i < |patterns| ==> WellFormed(patterns[i])
    ensures |split| == |patterns| && forall i :: 0 <= i < |patterns| ==> IsSplit(patterns[i], split[i])
  {
    split := [];
    for i := 0 to |patterns|
      invariant |split| == i
      invariant forall j :: 0 <= j < i ==> IsSplit(patterns[j], split[j])
    {
      var glob := SplitGlob(patterns[i]);
      split := split + [glob];
    }
  }

  method BuildTrie(ghost patterns: seq<Path>, split: seq<GlobParts>) returns (trie: Trie)
    requires |split| == |patterns|
    requires forall i :: 0 <= i < |patterns| ==> WellFormed(patterns[i]) && IsSplit(patterns[i], split[i])
    ensures Stores(trie, split)
  {
    trie := EmptyTrie;
    for i := 0 to |split|
      invariant Stores(trie, split[..i])
    {
      InsertSplit(trie, patterns[i], split, i);
      trie := Insert(trie, split[i].base, split[i].pattern);
    }
    assert split[..|split|] == split;
  }

  ghost predicate Stores(trie: Trie, globs: seq<GlobParts>) {
    Sorted(trie) && Rooted(trie, true) && multiset(Entries(trie, [])) == multiset(globs)
  }

  lemma {:induction false} InsertSplit(trie: Trie, components: Path, globs: seq<GlobParts>, i: nat)
    requires i < |globs| && Stores(trie, globs[..i])
    requires WellFormed(components) && IsSplit(components, globs[i])
    ensures Stores(Insert(trie, globs[i].base, globs[i].pattern), globs[..i + 1])
  {
    InsertOne(trie, components, globs[i]);
    assert globs[..i + 1] == globs[..i] + [globs[i]];
  }

  lemma {:induction false} InsertOne(trie: Trie, components: Path, g: GlobParts)
    requires Sorted(trie) && Rooted(trie, true) && WellFormed(components) && IsSplit(components, g)
    ensures var t := Insert(trie, g.base, g.pattern);
      Sorted(t) && Rooted(t, true) && multiset(Entries(t, [])) == multiset(Entries(trie, [])) + multiset{g}
  {
    InsertKeepsSorted(trie, g.base, g.pattern);
    SplitShape(components, g);
    InsertKeepsRooted(trie, true, g.base, g.pattern);
    InsertAddsOneEntry(trie, g.base, g.pattern, []);
    assert [] + g.base == g.base;
  }

  lemma {:induction false} SplitShape(components: Path, g: GlobParts)
    requires WellFormed(components) && IsSplit(components, g)
    ensures WellFormed(g.base) && Relative(g.pattern)
  {
    var whole, n := Rebuilt(components), |g.base|;
    assert WellFormed(whole);
    assert forall k :: 0 <= k < n ==> g.base[k] == whole[k];
    assert g.pattern != [] && n > 0 ==> g.pattern[0] == whole[n];
  }

  function Whole(g: GlobParts): Path {
    g.base + g.pattern
  }

  /** The whole globs of a sequence of split globs. */
  function Wholes(globs: seq<GlobParts>): seq<Path> {
    seq(|globs|, i requires 0 <= i < |globs| => Whole(globs[i]))
  }

  lemma {:induction false} WholesConcat(a: seq<GlobParts>, b: seq<GlobParts>)
    ensures Wholes(a + b) == Wholes(a) + Wholes(b)
  {
  }

  lemma {:induction false} WholesOfPermutation(a: seq<GlobParts>, b: seq<GlobParts>)
    requires multiset(a) == multiset(b)
    ensures multiset(Wholes(a)) == multiset(Wholes(b))
    decreases |a|
  {
    if a == [] {
      assert |multiset(b)| == 0;
    } else {
      assert a[0] in multiset(b);
      var j :| 0 <= j < |b| && b[j] == a[0];
      var a' := Without(a, 0);
      var b' := Without(b, j);
      WholesOfPermutation(a', b');
    }
  }

  /** Takes one glob out of a sequence. */
  lemma {:induction false} Without(a: seq<GlobParts>, j: nat) returns (a': seq<GlobParts>)
    requires j < |a|
    ensures |a'| == |a| - 1 && multiset(a') == multiset(a) - multiset{a[j]}
    ensures multiset(Wholes(a)) == multiset(Wholes(a')) + multiset{Whole(a[j])}
  {
    a' := a[..j] + a[j + 1..];
    assert a == a[..j] + [a[j]] + a[j + 1..];
    WholesConcat(a[..j], [a[j]]);
    WholesConcat(a[..j] + [a[j]], a[j + 1..]);
    WholesConcat(a[..j], a[j + 1..]);
  }

  lemma {:induction false} GroupWholes(c: Cluster, g: Group)
    requires IsCluster(c) && g == Group(c.base, Patterns(c.members, |c.base|))
    ensures Fulls(g) == Wholes(c.members)
  {
    forall i | 0 <= i < |c.members| ensures Fulls(g)[i] == Whole(c.members[i]) {
      assert c.members[i].base == c.base + c.members[i].base[|c.base|..];
    }
  }

  lemma {:induction false} FullPathsOfClusters(clusters: seq<Cluster>)
    requires forall i :: 0 <= i < |clusters| ==> IsCluster(clusters[i])
    ensures FullPaths(Render(clusters)) == Wholes(Members(clusters))
    decreases |clusters|
  {
    if clusters != [] {
      var n := |clusters| - 1;
      FullPathsOfClusters(clusters[..n]);
      assert Render(clusters)[..n] == Render(clusters[..n]);
      WholesConcat(Members(clusters[..n]), clusters[n].members);
      GroupWholes(clusters[n], Render(clusters)[n]);
    }
  }

  lemma {:induction false} FullPathsConserved(clusters: seq<Cluster>, globs: seq<GlobParts>, patterns: seq<Path>)
    requires IsClustering(clusters, globs) && |globs| == |patterns|
    requires forall i :: 0 <= i < |patterns| ==> IsSplit(patterns[i], globs[i])
    ensures multiset(FullPaths(Render(clusters))) == multiset(RebuiltAll(patterns))
  {
    FullPathsOfClusters(clusters);
    WholesOfPermutation(Members(clusters), globs);
    assert Wholes(globs) == RebuiltAll(patterns);
  }

  // ---------------------------------------------------------------------------------------------
  // What a clustering means for the walks

  /** No two walks enter the same directory, for any way down through ordinary directories. */
  lemma {:induction false} NoDirectoryIsWalkedTwice(clusters: seq<Cluster>, globs: seq<GlobParts>, i: nat, j: nat,
                                                    below: Path, below': Path)
    requires IsClustering(clusters, globs) && i < j < |clusters|
    requires AllNormal(below) && AllNormal(below')
    ensures clusters[i].base + below != clusters[j].base + below'
  {
    var a, b := clusters[i].base, clusters[j].base;
    assert Separate(clusters[i], clusters[j]);
    if a + below == b + below' {
      NestedBases(a, b, below, below');
    }
  }

  lemma {:induction false} NestedBases(a: Path, b: Path, below: Path, below': Path)
    requires AllNormal(below) && AllNormal(below') && a + below == b + below'
    ensures Reaches(a, b) || Reaches(b, a)
  {
    var whole := a + below;
    if |a| <= |b| {
      assert a == whole[..|a|] && b == whole[..|b|];
      assert b[|a|..] == below[..|b| - |a|];
    } else {
      assert a == whole[..|a|] && b == whole[..|b|];
      assert a[|b|..] == below'[..|a| - |b|];
    }
  }

  ghost predicate IsCommonPrefix(p: Path, members: seq<GlobParts>) {
    forall i :: 0 <= i < |members| ==> p <= members[i].base
  }

  /** Each base is the longest common prefix of the split bases in its group, and is literal. */
  lemma {:induction false} BaseIsLongestCommonPrefix(clusters: seq<Cluster>, globs: seq<GlobParts>, i: nat, p: Path)
    requires IsClustering(clusters, globs) && i < |clusters|
    requires forall k :: 0 <= k < |globs| ==> GlobFree(globs[k].base)
    ensures IsCommonPrefix(clusters[i].base, clusters[i].members)
    ensures IsCommonPrefix(p, clusters[i].members) ==> p <= clusters[i].base
    ensures GlobFree(clusters[i].base)
  {
    var c := clusters[i];
    assert IsCluster(c);
    var k :| 0 <= k < |c.members| && c.members[k].base == c.base;
    MemberOfCluster(clusters, i, k);
    assert c.members[k] in multiset(globs);
    assert c.members[k] in globs;
  }

  lemma {:induction false} MemberOfCluster(clusters: seq<Cluster>, i: nat, k: nat)
    requires i < |clusters| && k < |clusters[i].members|
    ensures clusters[i].members[k] in Members(clusters)
    decreases |clusters|
  {
    var n := |clusters| - 1;
    if i < n {
      MemberOfCluster(clusters[..n], i, k);
    }
  }

  lemma {:induction false} ClusterOfMember(clusters: seq<Cluster>, m: GlobParts) returns (i: nat, k: nat)
    requires m in Members(clusters)
    ensures i < |clusters| && k < |clusters[i].members| && clusters[i].members[k] == m
    decreases |clusters|
  {
    var n := |clusters| - 1;
    if m in clusters[n].members {
      i := n;
      k :| 0 <= k < |clusters[n].members| && clusters[n].members[k] == m;
    } else {
      i, k := ClusterOfMember(clusters[..n], m);
    }
  }
}
