/**
 * Models the operations of crates/uv-cache/src/lib.rs that create and remove cache entries. Each
 * operation is proved to keep links safe in every state it passes through, so that a crash at any
 * moment leaves no link to a missing or incomplete archive.
 */
module CacheEntries {
  import opened FileSystem
  import opened Removal
  import opened CacheLayout

  /** All states recorded since the trace was `n` long are good. */
  ghost predicate AllGood(trace: seq<Nodes>, n: nat, published: set<Path>) {
    forall i :: n <= i < |trace| ==> IsGood(trace[i], published)
  }

  /** A tree, and if it was `good` at first, no link is in danger and all are where the search finds them. */
  ghost predicate Keeps(nodes: Nodes, published: set<Path>, good: bool) {
    IsTree(nodes) && (good ==> IsGood(nodes, published))
  }

  // ---------------------------------------------------------------------------------------------
  // Removing entries

  /** The nodes outside a set of subtrees. */
  ghost function Dropped(nodes: Nodes, victims: set<Path>): Nodes {
    map q | q in nodes && !IsBelow(q, victims) :: nodes[q]
  }

  ghost predicate IsBelow(q: Path, victims: set<Path>) {
    exists v :: v in victims && v <= q
  }

  /** No archive that is linked to reaches into the subtree at `path`. */
  ghost predicate IsFree(nodes: Nodes, path: Path, published: set<Path>) {
    forall p, q :: IsLink(nodes, p) && q in published && Archive(nodes[p].id) <= q ==> !(path <= q)
  }

  /** Removing part of a free subtree keeps every remaining link safe. */
  lemma {:induction false} GoodOnTheWay(now: Nodes, before: Nodes, path: Path, published: set<Path>)
    requires OnTheWay(now, before, path, false) && IsGood(before, published) && IsFree(before, path, published)
    ensures IsGood(now, published)
    ensures forall other :: IsFree(before, other, published) ==> IsFree(now, other, published)
  {
    forall p | IsLink(now, p) ensures IsLink(before, p) && now[p] == before[p] && IsIntact(now, now[p].id, published) {
      assert SameButModes(now[p], before[p]);
    }
  }

  lemma {:induction false} RemovedIsDropped(now: Nodes, before: Nodes, path: Path)
    requires IsRemoved(now, before, path, false)
    ensures now == Dropped(before, {path})
  {
    forall q | q in before ensures q in now <==> !IsBelow(q, {path}) {
      assert IsBelow(q, {path}) <==> path <= q;
      assert IsDoomed(before, q, path, false) <==> path <= q;
    }
  }

  lemma {:induction false} DroppedTwice(nodes: Nodes, victims: set<Path>, more: set<Path>)
    ensures Dropped(Dropped(nodes, victims), more) == Dropped(nodes, victims + more)
  {
    forall q ensures IsBelow(q, victims + more) <==> IsBelow(q, victims) || IsBelow(q, more) {
      if IsBelow(q, victims + more) {
        var v :| v in victims + more && v <= q;
      }
    }
  }

  /** Every directory that is gone can be removed: it is readable, or can be made so. */
  ghost predicate CanGo(before: Nodes, after: Nodes) {
    forall d :: d in before && d !in after ==> before[d] != Dir(false, true)
  }

  /** Some nodes are gone, and nothing else has changed. */
  ghost predicate IsPartOf(after: Nodes, before: Nodes) {
    forall q :: q in after ==> q in before && after[q] == before[q]
  }

  lemma {:induction false} CanGoVia(before: Nodes, middle: Nodes, after: Nodes)
    requires IsPartOf(middle, before) && IsPartOf(after, middle)
    ensures CanGo(before, after) <==> CanGo(before, middle) && CanGo(middle, after)
  {
    if CanGo(before, after) {
      forall d | d in middle && d !in after ensures middle[d] != Dir(false, true) {
        assert d in before && before[d] == middle[d];
      }
    }
  }

  lemma {:induction false} DropIsRemoval(nodes: Nodes, path: Path)
    ensures CanGo(nodes, Dropped(nodes, {path})) <==> CanBeRemoved(nodes, path)
  {
    var after := Dropped(nodes, {path});
    forall d | d in nodes ensures d !in after <==> path <= d {
      assert IsBelow(d, {path}) <==> path <= d;
    }
    if CanGo(nodes, after) {
      forall d ensures d !in Stuck(nodes, path) {
      }
    } else {
      var d :| d in nodes && d !in after && nodes[d] == Dir(false, true);
      assert d in Stuck(nodes, path);
    }
  }

  /** `rm_rf` on one entry of the cache, adding to the summary. */
  method Delete(fs: FileSystem, path: Path, summary: Removal, ghost published: set<Path>, ghost good: bool)
    returns (ok: bool)
    requires Keeps(fs.nodes, published, good) && (good ==> IsFree(fs.nodes, path, published))
    modifies fs, summary
    ensures Keeps(fs.nodes, published, good)
    ensures good ==> forall other :: IsFree(old(fs.nodes), other, published) ==> IsFree(fs.nodes, other, published)
    ensures ok ==> fs.nodes == Dropped(old(fs.nodes), {path})
    ensures SucceedsIf(CanGo(old(fs.nodes), Dropped(old(fs.nodes), {path})), ok, old(fs.failed), fs.failed)
    ensures fs.nodes.Keys <= old(fs.nodes).Keys
    ensures ok ==> summary.Total(fs.nodes) == old(summary.Total(fs.nodes))
    ensures old(fs.trace) <= fs.trace && (good ==> AllGood(fs.trace, |old(fs.trace)|, published))
  {
    ghost var before := fs.nodes;
    DropIsRemoval(before, path);
    ok := summary.AddRemoval(fs, path);
    if ok {
      RemovedIsDropped(fs.nodes, before, path);
    }
    if good {
      GoodOnTheWay(fs.nodes, before, path, published);
      forall i | |old(fs.trace)| <= i < |fs.trace| ensures IsGood(fs.trace[i], published) {
        GoodOnTheWay(fs.trace[i], before, path, published);
      }
    }
  }

  /** Deletes a set of entries, in any order. */
  method DeleteAll(fs: FileSystem, victims: set<Path>, summary: Removal, ghost published: set<Path>, ghost good: bool)
    returns (ok: bool)
    requires Keeps(fs.nodes, published, good) && (good ==> forall v :: v in victims ==> IsFree(fs.nodes, v, published))
    modifies fs, summary
    ensures Keeps(fs.nodes, published, good)
    ensures good ==> forall other :: IsFree(old(fs.nodes), other, published) ==> IsFree(fs.nodes, other, published)
    ensures ok ==> fs.nodes == Dropped(old(fs.nodes), victims)
    ensures SucceedsIf(CanGo(old(fs.nodes), Dropped(old(fs.nodes), victims)), ok, old(fs.failed), fs.failed)
    ensures fs.nodes.Keys <= old(fs.nodes).Keys
    ensures ok ==> summary.Total(fs.nodes) == old(summary.Total(fs.nodes))
    ensures old(fs.trace) <= fs.trace && (good ==> AllGood(fs.trace, |old(fs.trace)|, published))
  {
    var left := victims;
    NothingDropped(fs.nodes);
    while left != {}
      invariant left <= victims && Keeps(fs.nodes, published, good)
      invariant good ==> forall other :: IsFree(old(fs.nodes), other, published) ==> IsFree(fs.nodes, other, published)
      invariant fs.nodes == Dropped(old(fs.nodes), victims - left)
      invariant fs.failed == old(fs.failed) && CanGo(old(fs.nodes), fs.nodes)
      invariant fs.nodes.Keys <= old(fs.nodes).Keys && summary.Total(fs.nodes) == old(summary.Total(fs.nodes))
      invariant old(fs.trace) <= fs.trace && (good ==> AllGood(fs.trace, |old(fs.trace)|, published))
      decreases left
    {
      var v :| v in left;
      DropsOnTheWay(old(fs.nodes), victims, victims - left, v);
      ok := Delete(fs, v, summary, published, good);
      if !ok {
        return false;
      }
      DroppedTwice(old(fs.nodes), victims - left, {v});
      assert victims - left + {v} == victims - (left - {v});
      left := left - {v};
    }
    assert victims - {} == victims;
    return true;
  }

  /** Dropping one more of the victims is on the way to dropping all of them. */
  lemma {:induction false} DropsOnTheWay(nodes: Nodes, victims: set<Path>, done: set<Path>, v: Path)
    requires done <= victims && v in victims
    ensures var now, all := Dropped(nodes, done), Dropped(nodes, victims);
      && (CanGo(nodes, all) ==> CanGo(now, Dropped(now, {v})))
      && (CanGo(nodes, now) && CanGo(now, Dropped(now, {v})) ==> CanGo(nodes, Dropped(now, {v})))
  {
    var now, all := Dropped(nodes, done), Dropped(nodes, victims);
    var next := Dropped(now, {v});
    DroppedTwice(nodes, done, {v});
    DropsShrink(nodes, done + {v}, victims);
    CanGoVia(nodes, next, all);
    CanGoVia(nodes, now, next);
  }

  lemma {:induction false} DropsShrink(nodes: Nodes, some: set<Path>, all: set<Path>)
    requires some <= all
    ensures IsPartOf(Dropped(nodes, all), Dropped(nodes, some))
  {
    forall q | IsBelow(q, some) ensures IsBelow(q, all) {
      var w :| w in some && w <= q;
      assert w in all;
    }
  }

  lemma {:induction false} NothingDropped(nodes: Nodes)
    ensures Dropped(nodes, {}) == nodes
  {
  }

  // ---------------------------------------------------------------------------------------------
  // Which subtrees are free

  lemma {:induction false} OutsideIsFree(nodes: Nodes, path: Path, published: set<Path>)
    requires IsGood(nodes, published) && path != [] && path[0] != ARCHIVE
    ensures IsFree(nodes, path, published)
  {
    assert forall q :: q in published ==> q[0] != path[0];
  }

  lemma {:induction false} LinksNeedArchives(nodes: Nodes, published: set<Path>, p: Path)
    requires IsGood(nodes, published) && IsLink(nodes, p)
    ensures [ARCHIVE] in nodes && nodes[[ARCHIVE]].Dir?
  {
    var archive := Archive(nodes[p].id);
    assert archive <= archive && archive in nodes;
    assert Parent(archive) == [ARCHIVE];
  }

  /** A stray top-level entry is free: if it is not the archive directory, it holds no archives. */
  lemma {:induction false} TopLevelIsFree(nodes: Nodes, name: string, published: set<Path>)
    requires IsGood(nodes, published) && [name] in nodes && !(name == ARCHIVE && nodes[[name]].Dir?)
    ensures IsFree(nodes, [name], published)
  {
    if name != ARCHIVE {
      OutsideIsFree(nodes, [name], published);
    } else if p :| IsLink(nodes, p) {
      LinksNeedArchives(nodes, published, p);
    }
  }

  lemma {:induction false} UnreferencedIsFree(nodes: Nodes, id: string, published: set<Path>)
    requires IsGood(nodes, published) && !IsReferenced(nodes, id)
    ensures IsFree(nodes, Archive(id), published)
  {
    forall p | IsLink(nodes, p) ensures nodes[p].id != id {
      assert IsScanned(p) && IsIntact(nodes, nodes[p].id, published);
      assert Archive(nodes[p].id) <= Archive(nodes[p].id);
      assert IsReference(nodes, p, nodes[p].id);
    }
    forall p, q | IsLink(nodes, p) && q in published && Archive(nodes[p].id) <= q ensures !(Archive(id) <= q) {
      ArchivesAreApart(nodes[p].id, id, q);
    }
  }

  lemma {:induction false} ArchivesAreApart(i: string, j: string, q: Path)
    requires Archive(i) <= q && i != j
    ensures !(Archive(j) <= q)
  {
    assert q[1] == i;
  }

  // ---------------------------------------------------------------------------------------------
  // References

  /** The links that resolve, grouped by archive. */
  ghost predicate AreReferences(references: map<string, set<Path>>, nodes: Nodes) {
    && (forall id :: id in references <==> IsReferenced(nodes, id))
    && (forall id, p :: id in references ==> (p in references[id] <==> IsReference(nodes, p, id)))
  }

  method FindArchiveReferences(nodes: Nodes) returns (references: map<string, set<Path>>)
    ensures AreReferences(references, nodes)
  {
    references := map[];
    var left := set p | p in nodes && IsScanned(p);
    while left != {}
      invariant forall p :: p in left ==> p in nodes && IsScanned(p)
      invariant forall id, p :: id in references && p in references[id] ==> IsReference(nodes, p, id)
      invariant forall id :: id in references ==> references[id] != {}
      invariant forall p, id :: IsReference(nodes, p, id) && p !in left ==> id in references && p in references[id]
      decreases left
    {
      var p :| p in left;
      left := left - {p};
      if nodes[p].Link? && Archive(nodes[p].id) in nodes {
        var id := nodes[p].id;
        var paths := if id in references then references[id] else {};
        references := references[id := paths + {p}];
      }
    }
    forall id | id in references ensures IsReferenced(nodes, id) {
      var p :| p in references[id];
      assert IsReference(nodes, p, id);
    }
  }
}
