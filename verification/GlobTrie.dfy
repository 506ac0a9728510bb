/**
 * Models the first half of crates/uv-cache-info/src/glob.rs: a glob is split into a literal base
 * and a pattern, and the bases are gathered in a trie whose edges are path components.
 * A path is the sequence of components that `Path::components` yields on Unix.
 */
module GlobTrie {
  import Ordering

  datatype Component = RootDir | CurDir | ParentDir | Normal(name: string)

  type Path = seq<Component>

  /** What `Path::components` guarantees: `/` and `.` are reported in first position only. */
  predicate WellFormed(p: Path) {
    forall i :: 0 < i < |p| ==> !p[i].RootDir? && !p[i].CurDir?
  }

  /** `PathBuf::join`: an absolute path replaces what it is joined to. */
  function Join(p: Path, q: Path): Path {
    if q != [] && q[0].RootDir? then q else p + q
  }

  predicate IsGlobLike(part: Component) {
    part.Normal? && exists i :: 0 <= i < |part.name| && part.name[i] in "*{}?[]"
  }

  predicate GlobFree(p: Path) {
    forall i :: 0 <= i < |p| ==> !IsGlobLike(p[i])
  }

  predicate AllNormal(p: Path) {
    forall i :: 0 <= i < |p| ==> p[i].Normal?
  }

  // ---------------------------------------------------------------------------------------------
  // Splitting one glob

  datatype GlobParts = GlobParts(base: Path, pattern: Path)

  /** The components of a glob without a `.` that is not its last component. */
  function Rebuilt(components: Path): Path {
    if |components| > 1 && components[0].CurDir? then components[1..] else components
  }

  /**
   * The longest possible base with the shortest possible pattern: nothing is lost, the base is
   * literal, and the pattern starts at the first glob or is a lone file name.
   */
  predicate IsSplit(components: Path, glob: GlobParts) {
    && glob.base + glob.pattern == Rebuilt(components)
    && GlobFree(glob.base)
    && (glob.pattern == [] ==> glob.base == [] || !glob.base[|glob.base| - 1].Normal?)
    && (glob.pattern != [] ==>
          IsGlobLike(glob.pattern[0]) || (|glob.pattern| == 1 && glob.pattern[0].Normal?))
  }

  /** There is only one such split, so `IsSplit` determines what `SplitGlob` returns. */
  lemma {:induction false} SplitIsUnique(components: Path, g: GlobParts, h: GlobParts)
    requires IsSplit(components, g) && IsSplit(components, h)
    ensures g == h
  {
    SplitPointOf(components, g);
    SplitPointOf(components, h);
    assert |g.base| == |h.base|;
  }

  /** The index `n` at which a glob without skipped components is cut in two. */
  predicate IsSplitPoint(whole: Path, n: int) {
    && 0 <= n <= |whole|
    && (forall k :: 0 <= k < n ==> !IsGlobLike(whole[k]))
    && (n < |whole| ==> IsGlobLike(whole[n]) || (n + 1 == |whole| && whole[n].Normal?))
    && (n == |whole| > 0 ==> !whole[n - 1].Normal?)
  }

  lemma {:induction false} SplitPointOf(components: Path, g: GlobParts)
    requires IsSplit(components, g)
    ensures IsSplitPoint(Rebuilt(components), |g.base|)
    ensures g == GlobParts(Rebuilt(components)[..|g.base|], Rebuilt(components)[|g.base|..])
  {
    var whole, n := Rebuilt(components), |g.base|;
    assert forall k :: 0 <= k < n ==> whole[k] == g.base[k];
  }

  /** The first `n` components without a leading `.`. */
  function Handled(components: Path, n: nat): Path
    requires n <= |components|
  {
    if n > 0 && components[0].CurDir? then components[1..n] else components[..n]
  }

  method SplitGlob(components: Path) returns (glob: GlobParts)
    requires WellFormed(components)
    ensures IsSplit(components, glob)
    ensures forall i, c :: 0 <= i < |glob.base| && glob.base[i].Normal? && c in glob.base[i].name ==>
      c !in {'*', '?', '[', ']', '{', '}'}
    ensures |glob.pattern| > 1 ==>
      glob.pattern[0].Normal? && exists c :: c in glob.pattern[0].name && c in {'*', '?', '[', ']', '{', '}'}
  {
    glob := GlobParts([], []);
    var globbing := false;
    var i := 0;
    // The last component seen, `components[i - 1]`, is deferred by one iteration.
    while i < |components|
      invariant 0 <= i <= |components|
      invariant i == 0 ==> glob == GlobParts([], []) && !globbing
      invariant i > 0 ==> IsDeferred(components, i, glob, globbing)
    {
      if i > 0 {
        glob := Flush(components, i, glob, globbing);
      }
      if !globbing {
        globbing := IsGlobLike(components[i]);
      }
      i := i + 1;
    }
    if i > 0 {
      glob := Finish(components, glob, globbing);
    }
    GlobsAreSpelled(glob);
  }

  /** What makes a component a glob. */
  lemma {:induction false} GlobsAreSpelled(glob: GlobParts)
    ensures GlobFree(glob.base) ==>
      forall i, c :: 0 <= i < |glob.base| && glob.base[i].Normal? && c in glob.base[i].name ==>
        c !in {'*', '?', '[', ']', '{', '}'}
    ensures glob.pattern != [] && IsGlobLike(glob.pattern[0]) ==>
      glob.pattern[0].Normal? && exists c :: c in glob.pattern[0].name && c in {'*', '?', '[', ']', '{', '}'}
  {
    forall i, c | GlobFree(glob.base) && 0 <= i < |glob.base| && glob.base[i].Normal? && c in glob.base[i].name
      ensures c !in {'*', '?', '[', ']', '{', '}'}
    {
      var j :| 0 <= j < |glob.base[i].name| && glob.base[i].name[j] == c;
      assert !IsGlobLike(glob.base[i]);
      Metacharacters(c);
    }
    if glob.pattern != [] && IsGlobLike(glob.pattern[0]) {
      var name := glob.pattern[0].name;
      var j :| 0 <= j < |name| && name[j] in "*{}?[]";
      Metacharacters(name[j]);
      assert name[j] in name;
    }
  }

  lemma {:induction false} Metacharacters(c: char)
    ensures c in "*{}?[]" <==> c in {'*', '?', '[', ']', '{', '}'}
  {
    var s := "*{}?[]";
    assert s[0] == '*' && s[1] == '{' && s[2] == '}' && s[3] == '?' && s[4] == '[' && s[5] == ']';
  }

  /** The base and pattern so far, with `components[i - 1]` still to be handled. */
  predicate IsDeferred(components: Path, i: nat, glob: GlobParts, globbing: bool)
    requires 0 < i <= |components|
  {
    && glob.base + glob.pattern == Handled(components, i - 1) && GlobFree(glob.base)
    && (glob.pattern != [] ==> globbing && IsGlobLike(glob.pattern[0]))
    && (globbing && glob.pattern == [] ==> IsGlobLike(components[i - 1]))
    && (!globbing ==> glob.pattern == [] && !IsGlobLike(components[i - 1]))
  }

  /** Handles the last component, which belongs to the pattern if it is a file name. */
  method Finish(components: Path, glob: GlobParts, globbing: bool) returns (r: GlobParts)
    requires WellFormed(components) && components != [] && IsDeferred(components, |components|, glob, globbing)
    ensures IsSplit(components, r)
  {
    var last := components[|components| - 1];
    HandledStep(components, |components|);
    if globbing || last.Normal? {
      r := glob.(pattern := Join(glob.pattern, [last]));
    } else {
      r := glob.(base := Join(glob.base, [last]));
    }
  }

  /** Handles the deferred component `components[i - 1]` once another one follows it. */
  method Flush(components: Path, i: nat, glob: GlobParts, globbing: bool) returns (r: GlobParts)
    requires WellFormed(components) && 0 < i < |components| && IsDeferred(components, i, glob, globbing)
    ensures r.base + r.pattern == Handled(components, i) && GlobFree(r.base)
    ensures r.pattern != [] ==> globbing && IsGlobLike(r.pattern[0])
    ensures globbing ==> r.pattern != []
  {
    r := glob;
    var last := components[i - 1];
    HandledStep(components, i);
    if last != CurDir {
      if globbing {
        r := r.(pattern := Join(r.pattern, [last]));
      } else {
        r := r.(base := Join(r.base, [last]));
      }
    }
  }

  lemma {:induction false} HandledStep(components: Path, i: nat)
    requires WellFormed(components) && 0 < i <= |components|
    ensures components[i - 1].CurDir? ==> i == 1 && Handled(components, 1) == []
    ensures !components[i - 1].CurDir? ==>
              Handled(components, i) == Handled(components, i - 1) + [components[i - 1]]
    ensures components[i - 1].RootDir? ==> Handled(components, i - 1) == []
    ensures i == |components| ==> Rebuilt(components) == Handled(components, i - 1) + [components[i - 1]]
  {
  }

  // ---------------------------------------------------------------------------------------------
  // The trie

  datatype Edge = Edge(part: Component, child: Trie)

  /** The children of a node are kept in the order of a `BTreeMap`, ascending by component. */
  datatype Trie = Trie(children: seq<Edge>, patterns: seq<Path>)

  const EmptyTrie := Trie([], [])

  function Rank(c: Component): nat {
    match c
    case RootDir => 0
    case CurDir => 1
    case ParentDir => 2
    case Normal(_) => 3
  }

  predicate Before(c: Component, d: Component) {
    Rank(c) < Rank(d) || (c.Normal? && d.Normal? && Ordering.Less(c.name, d.name))
  }

  predicate Ascending(children: seq<Edge>) {
    forall i, j :: 0 <= i < j < |children| ==> Before(children[i].part, children[j].part)
  }

  predicate Sorted(t: Trie) {
    Ascending(t.children) && forall i :: 0 <= i < |t.children| ==> Sorted(t.children[i].child)
  }

  /** The position of `part` among the children, or the position at which to insert it. */
  function Slot(children: seq<Edge>, part: Component): (r: nat)
    ensures r <= |children|
    ensures r > 0 ==> Before(children[r - 1].part, part)
    ensures forall i :: r <= i < |children| ==> !Before(children[i].part, part)
  {
    if children == [] then 0
    else if Before(children[|children| - 1].part, part) then |children|
    else Slot(children[..|children| - 1], part)
  }

  function Insert(t: Trie, components: Path, pattern: Path): Trie
    decreases |components|
  {
    if components == [] then
      t.(patterns := t.patterns + [pattern])
    else
      var part := components[0];
      var i := Slot(t.children, part);
      if i < |t.children| && t.children[i].part == part then
        var child := Insert(t.children[i].child, components[1..], pattern);
        t.(children := t.children[i := Edge(part, child)])
      else
        var child := Insert(EmptyTrie, components[1..], pattern);
        t.(children := t.children[..i] + [Edge(part, child)] + t.children[i..])
  }

  /** Everything stored at or below a node whose path from the root is `at`. */
  ghost function Entries(t: Trie, at: Path): seq<GlobParts>
    decreases t
  {
    Own(t.patterns, at) + EntriesBelow(t.children, at)
  }

  ghost function Own(patterns: seq<Path>, at: Path): seq<GlobParts> {
    seq(|patterns|, i requires 0 <= i < |patterns| => GlobParts(at, patterns[i]))
  }

  ghost function EdgeEntries(edge: Edge, at: Path): seq<GlobParts>
    decreases edge
  {
    Entries(edge.child, at + [edge.part])
  }

  ghost function EntriesBelow(children: seq<Edge>, at: Path): seq<GlobParts>
    decreases children
  {
    if children == [] then [] else
      EntriesBelow(children[..|children| - 1], at) + EdgeEntries(children[|children| - 1], at)
  }

  lemma {:induction false} EntriesBelowConcat(a: seq<Edge>, b: seq<Edge>, at: Path)
    ensures EntriesBelow(a + b, at) == EntriesBelow(a, at) + EntriesBelow(b, at)
    decreases |b|
  {
    if b == [] {
      assert a + b == a;
    } else {
      var n := |b| - 1;
      assert (a + b)[..|a| + n] == a + b[..n];
      EntriesBelowConcat(a, b[..n], at);
    }
  }

  lemma {:induction false} EntriesBelowSplit(children: seq<Edge>, i: nat, at: Path)
    requires i < |children|
    ensures EntriesBelow(children, at)
         == EntriesBelow(children[..i], at) + EdgeEntries(children[i], at)
            + EntriesBelow(children[i + 1..], at)
  {
    assert children == children[..i + 1] + children[i + 1..];
    EntriesBelowConcat(children[..i + 1], children[i + 1..], at);
    assert children[..i + 1][..i] == children[..i];
  }

  /** Inserting adds exactly one entry and disturbs none. */
  lemma {:induction false} InsertAddsOneEntry(t: Trie, components: Path, pattern: Path, at: Path)
    ensures multiset(Entries(Insert(t, components, pattern), at))
         == multiset(Entries(t, at)) + multiset{GlobParts(at + components, pattern)}
    decreases |components|
  {
    if components == [] {
      assert at + components == at;
      AddPattern(t, pattern, at);
    } else {
      var part, rest := components[0], components[1..];
      var i := Slot(t.children, part);
      assert at + [part] + rest == at + components;
      if i < |t.children| && t.children[i].part == part {
        InsertAddsOneEntry(t.children[i].child, rest, pattern, at + [part]);
        ReplaceChild(t, i, Insert(t.children[i].child, rest, pattern), GlobParts(at + components, pattern), at);
      } else {
        InsertAddsOneEntry(EmptyTrie, rest, pattern, at + [part]);
        NothingInEmpty(at + [part]);
        AddChild(t, i, Edge(part, Insert(EmptyTrie, rest, pattern)), GlobParts(at + components, pattern), at);
      }
    }
  }

  lemma {:induction false} AddPattern(t: Trie, pattern: Path, at: Path)
    ensures multiset(Entries(t.(patterns := t.patterns + [pattern]), at))
         == multiset(Entries(t, at)) + multiset{GlobParts(at, pattern)}
  {
    assert Own(t.patterns + [pattern], at) == Own(t.patterns, at) + [GlobParts(at, pattern)];
  }

  lemma {:induction false} NothingInEmpty(at: Path)
    ensures multiset(Entries(EmptyTrie, at)) == multiset{}
  {
  }

  lemma {:induction false} ReplaceChild(t: Trie, i: nat, child: Trie, e: GlobParts, at: Path)
    requires i < |t.children|
    requires multiset(Entries(child, at + [t.children[i].part]))
          == multiset(Entries(t.children[i].child, at + [t.children[i].part])) + multiset{e}
    ensures multiset(Entries(t.(children := t.children[i := Edge(t.children[i].part, child)]), at))
         == multiset(Entries(t, at)) + multiset{e}
  {
    EntriesBelowUpdate(t.children, i, Edge(t.children[i].part, child), e, at);
  }

  lemma {:induction false} AddChild(t: Trie, i: nat, edge: Edge, e: GlobParts, at: Path)
    requires i <= |t.children|
    requires multiset(Entries(edge.child, at + [edge.part])) == multiset{e}
    ensures multiset(Entries(t.(children := t.children[..i] + [edge] + t.children[i..]), at))
         == multiset(Entries(t, at)) + multiset{e}
  {
    EntriesBelowInsert(t.children, i, edge, at);
  }

  lemma {:induction false} EntriesBelowUpdate(children: seq<Edge>, i: nat, edge: Edge, e: GlobParts, at: Path)
    requires i < |children|
    requires multiset(EdgeEntries(edge, at)) == multiset(EdgeEntries(children[i], at)) + multiset{e}
    ensures multiset(EntriesBelow(children[i := edge], at))
         == multiset(EntriesBelow(children, at)) + multiset{e}
  {
    var updated := children[i := edge];
    EntriesBelowSplit(children, i, at);
    EntriesBelowSplit(updated, i, at);
    assert updated[..i] == children[..i] && updated[i + 1..] == children[i + 1..];
  }

  lemma {:induction false} EntriesBelowInsert(children: seq<Edge>, i: nat, edge: Edge, at: Path)
    requires i <= |children|
    ensures multiset(EntriesBelow(children[..i] + [edge] + children[i..], at))
         == multiset(EntriesBelow(children, at)) + multiset(EdgeEntries(edge, at))
  {
    var extended := children[..i] + [edge] + children[i..];
    EntriesBelowSplit(extended, i, at);
    assert extended[..i] == children[..i] && extended[i + 1..] == children[i..];
    assert children == children[..i] + children[i..];
    EntriesBelowConcat(children[..i], children[i..], at);
  }

  lemma {:induction false} BeforeIsStrictTotalOrder(a: Component, b: Component, c: Component)
    ensures !Before(a, a)
    ensures Before(a, b) && Before(b, c) ==> Before(a, c)
    ensures Before(a, b) || a == b || Before(b, a)
  {
    if a.Normal? {
      Ordering.LessIrreflexive(a.name);
      if b.Normal? {
        Ordering.LessTotal(a.name, b.name);
        if c.Normal? && Ordering.Less(a.name, b.name) && Ordering.Less(b.name, c.name) {
          Ordering.LessTransitive(a.name, b.name, c.name);
        }
      }
    }
  }

  lemma {:induction false} InsertKeepsSorted(t: Trie, components: Path, pattern: Path)
    requires Sorted(t)
    ensures Sorted(Insert(t, components, pattern))
    decreases |components|
  {
    if components != [] {
      var part := components[0];
      var i := Slot(t.children, part);
      if i < |t.children| && t.children[i].part == part {
        InsertKeepsSorted(t.children[i].child, components[1..], pattern);
      } else {
        InsertKeepsSorted(EmptyTrie, components[1..], pattern);
        NewEdgeKeepsAscending(t.children, Edge(part, Insert(EmptyTrie, components[1..], pattern)));
      }
    }
  }

  lemma {:induction false} NewEdgeKeepsAscending(children: seq<Edge>, edge: Edge)
    requires Ascending(children)
    requires var i := Slot(children, edge.part); i < |children| ==> children[i].part != edge.part
    ensures var i := Slot(children, edge.part); Ascending(children[..i] + [edge] + children[i..])
  {
    var part, i := edge.part, Slot(children, edge.part);
    forall j | 0 <= j < i ensures Before(children[j].part, part) {
      BeforeIsStrictTotalOrder(children[j].part, children[i - 1].part, part);
    }
    forall j | i <= j < |children| ensures Before(part, children[j].part) {
      BeforeIsStrictTotalOrder(part, children[i].part, children[j].part);
    }
  }

  lemma {:induction false} SortedPartsDiffer(children: seq<Edge>, i: nat, j: nat)
    requires Ascending(children) && i < j < |children|
    ensures children[i].part != children[j].part
  {
    var part := children[i].part;
    BeforeIsStrictTotalOrder(part, part, part);
  }

  /** Joining along the trie never meets an absolute path below the root. */
  predicate Rooted(t: Trie, atRoot: bool) {
    && (forall i :: 0 <= i < |t.patterns| ==> Relative(t.patterns[i]))
    && (forall i :: 0 <= i < |t.children| ==> t.children[i].part.RootDir? ==> atRoot)
    && (forall i :: 0 <= i < |t.children| ==> Rooted(t.children[i].child, false))
  }

  predicate Relative(p: Path) {
    p == [] || !p[0].RootDir?
  }

  lemma {:induction false} InsertKeepsRooted(t: Trie, atRoot: bool, components: Path, pattern: Path)
    requires Rooted(t, atRoot) && Relative(pattern) && WellFormed(components)
    requires atRoot || Relative(components)
    ensures Rooted(Insert(t, components, pattern), atRoot)
    decreases |components|
  {
    if components != [] {
      var i := Slot(t.children, components[0]);
      var found := i < |t.children| && t.children[i].part == components[0];
      InsertKeepsRooted(if found then t.children[i].child else EmptyTrie, false, components[1..], pattern);
    }
  }
}
