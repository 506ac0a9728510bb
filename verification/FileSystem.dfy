/**
 * The file system as the cache sees it: a finite tree of nodes below the cache root, whose path is
 * empty. Every change is one atomic step that may fail, and the object remembers each state it has
 * been in, so that a claim about all recorded states is a claim about a crash at any moment, and
 * whether a step failed, so that it can be said when an operation succeeds.
 */
module FileSystem {
  type Path = seq<string>

  /**
   * A directory has the owner's read and search permissions; a link points to an archive by its
   * identifier.
   */
  datatype Node =
    | Dir(read: bool, search: bool)
    | File(size: nat)
    | Link(id: string, size: nat)

  type Nodes = map<Path, Node>

  function Parent(p: Path): Path
    requires p != []
  {
    p[..|p| - 1]
  }

  /** Every node but the root lies in a directory. */
  ghost predicate IsTree(nodes: Nodes) {
    forall p :: p in nodes && p != [] ==> Parent(p) in nodes && nodes[Parent(p)].Dir?
  }

  ghost predicate IsLeaf(nodes: Nodes, p: Path) {
    p in nodes && forall q :: q in nodes && p <= q ==> q == p
  }

  lemma {:induction false} AncestorsExist(nodes: Nodes, p: Path, q: Path)
    requires IsTree(nodes) && q in nodes && p <= q
    ensures p in nodes && (p != q ==> nodes[p].Dir?)
    decreases |q|
  {
    if p != q {
      assert p <= Parent(q);
      AncestorsExist(nodes, p, Parent(q));
    }
  }

  /** A tree placed at a path of another one. */
  function Grafted(nodes: Nodes, p: Path, content: Nodes): Nodes {
    nodes + (map q | q in Shifted(p, content.Keys) :: content[q[|p|..]])
  }

  function Shifted(p: Path, paths: set<Path>): (r: set<Path>)
    ensures forall q :: q in r <==> p <= q && q[|p|..] in paths
  {
    var r := set q | q in paths :: p + q;
    assert forall q :: q in paths ==> (p + q)[|p|..] == q;
    assert forall q :: p <= q ==> q == p + q[|p|..];
    r
  }

  lemma {:induction false} GraftedIsTree(nodes: Nodes, p: Path, content: Nodes)
    requires IsTree(nodes) && IsTree(content) && p != [] && Parent(p) in nodes && nodes[Parent(p)].Dir?
    requires forall q :: p <= q ==> q !in nodes
    ensures IsTree(Grafted(nodes, p, content))
  {
    var result := Grafted(nodes, p, content);
    forall q | q in result && q != [] ensures Parent(q) in result && result[Parent(q)].Dir? {
      if p <= q && q != p {
        var rest := q[|p|..];
        assert Parent(q)[|p|..] == Parent(rest) && p <= Parent(q);
      }
    }
  }

  /** An operation is a success exactly if it can be one and none of its steps fails. */
  predicate SucceedsIf(can: bool, ok: bool, failedBefore: bool, failedAfter: bool) {
    if ok then can && failedAfter == failedBefore else (!can || failedAfter) && (failedBefore ==> failedAfter)
  }

  class FileSystem {
    var nodes: Nodes
    ghost var trace: seq<Nodes>
    /** Some step has failed. */
    ghost var failed: bool

    ghost predicate Valid()
      reads this
    {
      IsTree(nodes)
    }

    constructor (nodes: Nodes)
      requires IsTree(nodes)
      ensures Valid() && this.nodes == nodes && trace == [nodes] && !failed
    {
      this.nodes, trace, failed := nodes, [nodes], false;
    }

    /** Removes a file, a link or an empty directory; may fail without effect. */
    method RemoveNode(p: Path) returns (ok: bool)
      requires Valid() && IsLeaf(nodes, p)
      modifies this
      ensures Valid() && nodes == if ok then old(nodes) - {p} else old(nodes)
      ensures trace == old(trace) + [nodes] && failed == (old(failed) || !ok)
    {
      ok := *;
      if ok {
        nodes := nodes - {p};
      }
      trace, failed := trace + [nodes], failed || !ok;
    }

    /** Creates a directory, a file or a link in an existing directory; may fail without effect. */
    method CreateNode(p: Path, node: Node) returns (ok: bool)
      requires Valid() && p !in nodes && (p != [] ==> Parent(p) in nodes && nodes[Parent(p)].Dir?)
      modifies this
      ensures Valid() && nodes == if ok then old(nodes)[p := node] else old(nodes)
      ensures trace == old(trace) + [nodes] && failed == (old(failed) || !ok)
    {
      ok := *;
      if ok {
        nodes := nodes[p := node];
      }
      trace, failed := trace + [nodes], failed || !ok;
    }

    /** Renames a directory from elsewhere into the cache, with all it contains; may fail without effect. */
    method MoveIn(p: Path, content: Nodes) returns (ok: bool)
      requires Valid() && IsTree(content) && p != [] && Parent(p) in nodes && nodes[Parent(p)].Dir?
      requires forall q :: p <= q ==> q !in nodes
      modifies this
      ensures Valid() && nodes == if ok then Grafted(old(nodes), p, content) else old(nodes)
      ensures trace == old(trace) + [nodes] && failed == (old(failed) || !ok)
    {
      ok := *;
      if ok {
        GraftedIsTree(nodes, p, content);
        nodes := Grafted(nodes, p, content);
      }
      trace, failed := trace + [nodes], failed || !ok;
    }

    /** Renames a link over a file or link that exists; may fail without effect. */
    method RenameOver(from: Path, to: Path) returns (ok: bool)
      requires Valid() && from in nodes && nodes[from].Link? && to in nodes && !nodes[to].Dir? && from != to
      modifies this
      ensures Valid() && nodes == if ok then (old(nodes) - {from})[to := old(nodes)[from]] else old(nodes)
      ensures trace == old(trace) + [nodes] && failed == (old(failed) || !ok)
    {
      ok := *;
      if ok {
        var node := nodes[from];
        nodes := (nodes - {from})[to := node];
      }
      trace, failed := trace + [nodes], failed || !ok;
    }

    /** Gives the owner read and search permission; may fail without effect. */
    method SetReadable(p: Path) returns (ok: bool)
      requires Valid() && p in nodes && nodes[p].Dir?
      modifies this
      ensures Valid() && nodes == if ok then old(nodes)[p := Dir(true, true)] else old(nodes)
      ensures trace == old(trace) + [nodes] && failed == (old(failed) || !ok)
    {
      ok := *;
      if ok {
        nodes := nodes[p := Dir(true, true)];
      }
      trace, failed := trace + [nodes], failed || !ok;
    }
  }

  // ---------------------------------------------------------------------------------------------
  // Counting nodes

  ghost function Files(nodes: Nodes): set<Path> {
    set p | p in nodes && !nodes[p].Dir?
  }

  ghost function Dirs(nodes: Nodes): set<Path> {
    set p | p in nodes && nodes[p].Dir?
  }

  function Size(node: Node): nat {
    if node.Dir? then 0 else node.size
  }

  ghost function Bytes(nodes: Nodes): nat {
    if nodes == map[] then 0 else
      var p :| p in nodes;
      Size(nodes[p]) + Bytes(nodes - {p})
  }

  lemma {:induction false} BytesWithout(nodes: Nodes, p: Path)
    requires p in nodes
    ensures Bytes(nodes) == Size(nodes[p]) + Bytes(nodes - {p})
    decreases |nodes|
  {
    var q :| q in nodes && Bytes(nodes) == Size(nodes[q]) + Bytes(nodes - {q});
    if p != q {
      BytesWithout(nodes - {q}, p);
      BytesWithout(nodes - {p}, q);
      assert nodes - {q} - {p} == nodes - {p} - {q};
    }
  }

  lemma {:induction false} CountWithout(nodes: Nodes, p: Path)
    requires p in nodes
    ensures |Files(nodes)| == |Files(nodes - {p})| + (if nodes[p].Dir? then 0 else 1)
    ensures |Dirs(nodes)| == |Dirs(nodes - {p})| + (if nodes[p].Dir? then 1 else 0)
  {
    if nodes[p].Dir? {
      assert Files(nodes) == Files(nodes - {p}) && Dirs(nodes) == Dirs(nodes - {p}) + {p};
    } else {
      assert Files(nodes) == Files(nodes - {p}) + {p} && Dirs(nodes) == Dirs(nodes - {p});
    }
  }

  /** Changing the permissions of a directory changes no count. */
  lemma {:induction false} CountReadable(nodes: Nodes, p: Path, node: Node)
    requires p in nodes && nodes[p].Dir? && node.Dir?
    ensures Files(nodes[p := node]) == Files(nodes) && Dirs(nodes[p := node]) == Dirs(nodes)
    ensures Bytes(nodes[p := node]) == Bytes(nodes)
  {
    BytesWithout(nodes, p);
    BytesWithout(nodes[p := node], p);
    assert nodes[p := node] - {p} == nodes - {p};
  }
}
