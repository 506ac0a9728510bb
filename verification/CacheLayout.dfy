/**
 * The layout of the cache in crates/uv-cache/src/lib.rs: its buckets, the links from the wheel and
 * source distribution buckets to archives, and which names the search for links looks at.
 */
module CacheLayout {
  import opened FileSystem

  const WHEELS := "wheels-v5"
  const SDISTS := "sdists-v9"
  const ARCHIVE := "archive-v0"
  const ENVIRONMENTS := "environments-v2"
  const SIMPLE := "simple-v18"
  const FLAT_INDEX := "flat-index-v2"
  const METADATA := "metadata.msgpack"

  /** `CacheBucket::iter`, which leaves out the bucket of Python downloads. */
  predicate IsBucket(name: string) {
    || name == WHEELS || name == SDISTS || name == FLAT_INDEX || name == "git-v0" || name == "interpreter-v4"
    || name == SIMPLE || name == ARCHIVE || name == "builds-v0" || name == ENVIRONMENTS || name == "binaries-v0"
  }

  predicate IsMarker(name: string) {
    name == "CACHEDIR.TAG" || name == ".gitignore" || name == ".git" || name == ".lock"
  }

  function Archive(id: string): Path {
    [ARCHIVE, id]
  }

  predicate InLinkBucket(p: Path) {
    p != [] && (p[0] == WHEELS || p[0] == SDISTS)
  }

  // ---------------------------------------------------------------------------------------------
  // Names

  function LastDot(name: string): (i: int)
    ensures -1 <= i < |name|
  {
    if name == [] then -1
    else if name[|name| - 1] == '.' then |name| - 1
    else LastDot(name[..|name| - 1])
  }

  /** `Path::extension`: what follows the last dot, unless the name starts there. */
  function Extension(name: string): string {
    if LastDot(name) > 0 then name[LastDot(name) + 1..] else ""
  }

  function LowerChar(c: char): char {
    if 'A' <= c <= 'Z' then (c as int + 32) as char else c
  }

  function Lower(s: string): string {
    seq(|s|, i requires 0 <= i < |s| => LowerChar(s[i]))
  }

  predicate IsWheelName(name: string) {
    Lower(Extension(name)) == "whl"
  }

  /** The names that the search for links neither reports nor descends into. */
  predicate IsFiltered(name: string) {
    || name == "src" || name == ".lock" || name == ".gitignore"
    || Lower(Extension(name)) in {"lock", "whl", "http", "rev", "msgpack"}
  }

  /** A node that the search for links reaches: no name on the way below its bucket is filtered. */
  predicate IsScanned(p: Path) {
    InLinkBucket(p) && forall i :: 1 <= i < |p| ==> !IsFiltered(p[i])
  }

  // ---------------------------------------------------------------------------------------------
  // Links

  /** A link in one of the two buckets that hold links. */
  predicate IsLink(nodes: Nodes, p: Path) {
    p in nodes && InLinkBucket(p) && nodes[p].Link?
  }

  /** What `find_archive_references` reports: a scanned link whose archive exists. */
  predicate IsReference(nodes: Nodes, p: Path, id: string) {
    IsLink(nodes, p) && IsScanned(p) && nodes[p].id == id && Archive(id) in nodes
  }

  ghost predicate IsReferenced(nodes: Nodes, id: string) {
    exists p :: IsReference(nodes, p, id)
  }

  /**
   * `published` are all paths that were ever moved into the archive bucket. An archive is intact
   * if everything published for it is still there.
   */
  ghost predicate IsIntact(nodes: Nodes, id: string, published: set<Path>) {
    Archive(id) in published && forall q :: q in published && Archive(id) <= q ==> q in nodes
  }

  /** The safety property: no link points to an archive that is missing or incomplete. */
  ghost predicate IsSafe(nodes: Nodes, published: set<Path>) {
    forall p :: IsLink(nodes, p) ==> IsIntact(nodes, nodes[p].id, published)
  }

  /** Links lie only where the search finds them, and entries that are walked into are real. */
  ghost predicate IsPlaced(nodes: Nodes) {
    && (forall p :: IsLink(nodes, p) ==> IsScanned(p))
    && (forall p :: IsLink(nodes, p) && p[0] == WHEELS ==> |p| > 2)
  }

  /** A tree in which no link points to an archive that is missing or incomplete. */
  ghost predicate IsSound(nodes: Nodes, published: set<Path>) {
    && IsTree(nodes) && IsSafe(nodes, published)
    && forall q :: q in published ==> |q| >= 2 && q[0] == ARCHIVE
  }

  /** The same, with all links where the search finds them, which collecting archives relies on. */
  ghost predicate IsGood(nodes: Nodes, published: set<Path>) {
    IsSound(nodes, published) && IsPlaced(nodes)
  }
}
