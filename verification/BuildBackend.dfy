/**
 * Models which files the build backend selects: the module walk of
 * crates/uv-build-backend/src/wheel.rs and the walk of crates/uv-build-backend/src/source_dist.rs.
 * The main result says exactly when building a wheel through a source distribution selects the
 * same module files as building it directly.
 */
module BuildBackend {
  import opened Wrappers

  type Path = seq<string>

  datatype Entry = Dir | File(content: string)

  /** A source tree, with paths relative to its root. */
  type Tree = map<Path, Entry>

  ghost predicate IsTree(tree: Tree) {
    && [] in tree
    && forall p :: p in tree && p != [] ==> p[..|p| - 1] in tree && tree[p[..|p| - 1]].Dir?
  }

  lemma {:induction false} PrefixesExist(tree: Tree, p: Path, n: nat)
    requires IsTree(tree) && p in tree && n <= |p|
    ensures p[..n] in tree
    decreases |p|
  {
    if n < |p| {
      PrefixesExist(tree, p[..|p| - 1], n);
      assert p[..|p| - 1][..n] == p[..n];
    } else {
      assert p[..n] == p;
    }
  }

  // ---------------------------------------------------------------------------------------------
  // Excludes

  const DEFAULT_EXCLUDES := ["__pycache__", "*.pyc", "*.pyo"]

  /** The elements in order of their first occurrence. */
  function Unique(s: seq<string>): seq<string> {
    if s == [] then []
    else
      var rest := Unique(s[..|s| - 1]);
      if s[|s| - 1] in rest then rest else rest + [s[|s| - 1]]
  }

  predicate NoRepeats<T(==)>(s: seq<T>) {
    forall i, j :: 0 <= i < j < |s| ==> s[i] != s[j]
  }

  lemma {:induction false} UniqueKeepsElements(s: seq<string>)
    ensures NoRepeats(Unique(s)) && forall g :: g in Unique(s) <==> g in s
  {
    if s != [] {
      UniqueKeepsElements(s[..|s| - 1]);
      assert s == s[..|s| - 1] + [s[|s| - 1]];
    }
  }

  lemma {:induction false} UniqueStep(s: seq<string>, more: seq<string>, i: nat)
    requires i < |more|
    ensures Unique(s + more[..i + 1]) ==
      (if more[i] in Unique(s + more[..i]) then Unique(s + more[..i]) else Unique(s + more[..i]) + [more[i]])
  {
    var t := s + more[..i + 1];
    assert t[..|t| - 1] == s + more[..i] && t[|t| - 1] == more[i];
  }

  /** Appends the globs that are not there yet. */
  method AddExcludes(excludes: seq<string>, more: seq<string>, ghost before: seq<string>) returns (r: seq<string>)
    requires excludes == Unique(before)
    ensures r == Unique(before + more)
  {
    r := excludes;
    assert before + more[..0] == before;
    for i := 0 to |more|
      invariant r == Unique(before + more[..i])
    {
      UniqueStep(before, more, i);
      if more[i] !in r {
        r := r + [more[i]];
      }
    }
    assert more[..|more|] == more;
  }

  datatype Settings = Settings(defaultExcludes: bool, wheelExclude: seq<string>, sourceExclude: seq<string>)

  function Defaults(settings: Settings): seq<string> {
    if settings.defaultExcludes then DEFAULT_EXCLUDES else []
  }

  lemma {:induction false} UniqueAppend(s: seq<string>, g: string)
    requires Unique(s) == s && g !in s
    ensures Unique(s + [g]) == s + [g]
  {
    assert (s + [g])[..|s|] == s;
  }

  lemma {:induction false} DefaultsAreUnique(settings: Settings)
    ensures Unique(Defaults(settings)) == Defaults(settings)
  {
    assert "__pycache__"[0] == '_' && "*.pyc"[0] == '*' && "*.pyc"[4] == 'c' && "*.pyo"[4] == 'o';
    UniqueAppend([], "__pycache__");
    UniqueAppend(["__pycache__"], "*.pyc");
    UniqueAppend(["__pycache__", "*.pyc"], "*.pyo");
    assert [] + ["__pycache__"] == ["__pycache__"];
    assert ["__pycache__"] + ["*.pyc"] == ["__pycache__", "*.pyc"];
    assert ["__pycache__", "*.pyc"] + ["*.pyo"] == DEFAULT_EXCLUDES;
  }

  lemma {:induction false} UniqueStartsAlike(s: seq<string>, more: seq<string>)
    ensures Unique(s) <= Unique(s + more)
    decreases |more|
  {
    if more == [] {
      assert s + more == s;
    } else {
      var t := s + more;
      assert t[..|t| - 1] == s + more[..|more| - 1];
      UniqueStartsAlike(s, more[..|more| - 1]);
    }
  }

  /** The globs for compiled Python files come first unless they are switched off, and then there are none. */
  ghost predicate HasDefaults(settings: Settings, globs: seq<string>, own: seq<string>) {
    if settings.defaultExcludes
    then ["__pycache__", "*.pyc", "*.pyo"] <= globs
         && forall g :: g in globs <==> g in ["__pycache__", "*.pyc", "*.pyo"] || g in own
    else forall g :: g in globs <==> g in own
  }

  /** The wheel leaves out what the source distribution leaves out, and more. */
  method WheelExcludes(settings: Settings) returns (r: seq<string>)
    ensures NoRepeats(r) && HasDefaults(settings, r, settings.wheelExclude + settings.sourceExclude)
    ensures r == Unique(Defaults(settings) + settings.wheelExclude + settings.sourceExclude)
  {
    DefaultsAreUnique(settings);
    r := Defaults(settings);
    r := AddExcludes(r, settings.wheelExclude, Defaults(settings));
    r := AddExcludes(r, settings.sourceExclude, Defaults(settings) + settings.wheelExclude);
    UniqueKeepsElements(Defaults(settings) + settings.wheelExclude + settings.sourceExclude);
    UniqueStartsAlike(Defaults(settings), settings.wheelExclude);
    UniqueStartsAlike(Defaults(settings) + settings.wheelExclude, settings.sourceExclude);
  }

  method SourceExcludes(settings: Settings) returns (r: seq<string>)
    ensures NoRepeats(r) && HasDefaults(settings, r, settings.sourceExclude)
    ensures r == Unique(Defaults(settings) + settings.sourceExclude)
  {
    DefaultsAreUnique(settings);
    r := AddExcludes(Defaults(settings), settings.sourceExclude, Defaults(settings));
    UniqueKeepsElements(Defaults(settings) + settings.sourceExclude);
    UniqueStartsAlike(Defaults(settings), settings.sourceExclude);
  }

  type Matcher = (string, Path) -> bool

  predicate IsExcluded(matches: Matcher, globs: seq<string>, p: Path) {
    exists g :: g in globs && matches(g, p)
  }

  // ---------------------------------------------------------------------------------------------
  // Walks

  /** A walk from `at` that descends only into what it keeps reaches `p`. */
  ghost predicate IsReached(tree: Tree, at: Path, keep: Path -> bool, p: Path) {
    p in tree && at <= p && IsKept(keep, p, |at|)
  }

  /** Every prefix of `p` from length `k` on is kept. */
  ghost predicate IsKept(keep: Path -> bool, p: Path, k: nat) {
    forall n :: k <= n <= |p| ==> keep(p[..n])
  }

  lemma {:induction false} KeptFromNext(keep: Path -> bool, p: Path, k: nat)
    requires k <= |p|
    ensures IsKept(keep, p, k) <==> keep(p[..k]) && IsKept(keep, p, k + 1)
  {
  }

  ghost function Below(tree: Tree, at: Path): set<Path> {
    set p | p in tree && at <= p
  }

  function Children(tree: Tree, at: Path): set<Path> {
    set p | p in tree && |p| == |at| + 1 && at <= p
  }

  /** What is reached below `at` is reached from one of its children. */
  lemma {:induction false} ReachedThroughChild(tree: Tree, at: Path, keep: Path -> bool, p: Path)
    requires IsTree(tree) && keep(at) && at <= p && p != at
    ensures IsReached(tree, at, keep, p) <==> IsReached(tree, p[..|at| + 1], keep, p)
    ensures p in tree ==> p[..|at| + 1] in Children(tree, at)
  {
    assert p[..|at|] == at;
    KeptFromNext(keep, p, |at|);
    if p in tree {
      PrefixesExist(tree, p, |at| + 1);
    }
  }

  method Walk(tree: Tree, at: Path, keep: Path -> bool) returns (visited: seq<Path>)
    requires IsTree(tree) && at in tree
    ensures forall p :: p in visited <==> IsReached(tree, at, keep, p)
    decreases Below(tree, at)
  {
    if !keep(at) {
      NothingKept(tree, at, keep);
      return [];
    }
    visited := [at];
    var left := Children(tree, at);
    StartOfWalk(tree, at, keep);
    while left != {}
      invariant left <= Children(tree, at)
      invariant forall p :: p in visited <==> IsReachedSoFar(tree, at, keep, left, p)
      decreases left
    {
      var child :| child in left;
      BelowShrinks(tree, at, child);
      var more := Walk(tree, child, keep);
      forall p ensures IsReachedSoFar(tree, at, keep, left - {child}, p) <==>
                       IsReachedSoFar(tree, at, keep, left, p) || IsReached(tree, child, keep, p)
      {
        OneMoreChild(tree, at, keep, left, child, p);
      }
      visited, left := visited + more, left - {child};
    }
    EndOfWalk(tree, at, keep);
  }

  lemma {:induction false} NothingKept(tree: Tree, at: Path, keep: Path -> bool)
    requires !keep(at)
    ensures forall p :: !IsReached(tree, at, keep, p)
  {
    forall p ensures !IsReached(tree, at, keep, p) {
      if at <= p {
        assert p[..|at|] == at;
        KeptFromNext(keep, p, |at|);
      }
    }
  }

  lemma {:induction false} BelowShrinks(tree: Tree, at: Path, child: Path)
    requires at in tree && child in Children(tree, at)
    ensures Below(tree, child) < Below(tree, at)
  {
    assert at in Below(tree, at) && at !in Below(tree, child);
  }

  /** The directory itself, or something below a child that is done. */
  ghost predicate IsReachedSoFar(tree: Tree, at: Path, keep: Path -> bool, left: set<Path>, p: Path) {
    IsReached(tree, at, keep, p) && (p == at || p[..|at| + 1] !in left)
  }

  lemma {:induction false} StartOfWalk(tree: Tree, at: Path, keep: Path -> bool)
    requires IsTree(tree) && at in tree && keep(at)
    ensures forall p :: p in [at] <==> IsReachedSoFar(tree, at, keep, Children(tree, at), p)
  {
    assert at[..|at|] == at;
    KeptFromNext(keep, at, |at|);
    forall p ensures p in [at] <==> IsReachedSoFar(tree, at, keep, Children(tree, at), p) {
      if p != at && at <= p {
        ReachedThroughChild(tree, at, keep, p);
      }
    }
  }

  lemma {:induction false} OneMoreChild(tree: Tree, at: Path, keep: Path -> bool, left: set<Path>, child: Path, p: Path)
    requires IsTree(tree) && at in tree && keep(at) && child in left && left <= Children(tree, at)
    ensures IsReachedSoFar(tree, at, keep, left - {child}, p) <==>
      IsReachedSoFar(tree, at, keep, left, p) || IsReached(tree, child, keep, p)
  {
    if at <= p && p != at {
      ReachedThroughChild(tree, at, keep, p);
      assert child <= p <==> p[..|at| + 1] == child;
    } else {
      assert child <= p ==> at <= p && p != at;
    }
  }

  lemma {:induction false} EndOfWalk(tree: Tree, at: Path, keep: Path -> bool)
    ensures forall p :: IsReachedSoFar(tree, at, keep, {}, p) <==> IsReached(tree, at, keep, p)
  {
  }

  // ---------------------------------------------------------------------------------------------
  // Modules

  /**
   * A module lies at `path`; `init` is the file that must exist for it, absent for a namespace, and
   * `forbidden` are the files that must not exist above it.
   */
  datatype Module = Module(path: Path, init: Option<string>, forbidden: set<Path>)

  predicate IsModuleOf(m: Module, src: Path) {
    src <= m.path && m.path != [] && m.path[0] != "PKG-INFO" && [] !in m.forbidden && ["PKG-INFO"] !in m.forbidden
  }

  predicate AreModulesOf(modules: seq<Module>, src: Path) {
    forall i :: 0 <= i < |modules| ==> IsModuleOf(modules[i], src)
  }

  /** The last file or directory that has to exist for the module to be found and walked. */
  function Needed(m: Module): Path {
    if m.init.Some? then m.path + [m.init.value] else m.path
  }

  /** What `find_roots` checks; it accepts any namespace. */
  predicate IsValid(tree: Tree, m: Module) {
    (m.init.Some? ==> Needed(m) in tree && tree[Needed(m)].File?) && m.forbidden !! tree.Keys
  }

  predicate AreValid(tree: Tree, modules: seq<Module>) {
    forall i :: 0 <= i < |modules| ==> IsValid(tree, modules[i])
  }

  /** The walk of a module fails if there is nothing to walk. */
  predicate IsFound(tree: Tree, m: Module) {
    IsValid(tree, m) && Needed(m) in tree
  }

  predicate AreFound(tree: Tree, modules: seq<Module>) {
    forall i :: 0 <= i < |modules| ==> IsFound(tree, modules[i])
  }

  /** Where the tree lies, and how its excludes match: against a full path, and against one in the tree. */
  datatype Build = Build(root: Path, matches: Matcher, globs: seq<string>)

  predicate ExcludesFull(b: Build, p: Path) {
    IsExcluded(b.matches, b.globs, b.root + p)
  }

  predicate Excludes(b: Build, p: Path) {
    IsExcluded(b.matches, b.globs, p)
  }

  /** The walk prunes by the full path, and each entry is then checked by its path in the tree. */
  ghost predicate IsSelected(tree: Tree, b: Build, m: Module, p: Path) {
    IsReached(tree, m.path, q => !ExcludesFull(b, q), p) && !Excludes(b, p)
  }

  ghost predicate IsSelectedByAny(tree: Tree, b: Build, modules: seq<Module>, p: Path) {
    exists i :: 0 <= i < |modules| && IsSelected(tree, b, modules[i], p)
  }

  /** The module files of the wheel, named by their paths below the source root. */
  ghost predicate AreModuleFiles(tree: Tree, b: Build, src: Path, modules: seq<Module>, files: Tree) {
    && (forall name :: name in files <==> IsSelectedByAny(tree, b, modules, src + name))
    && (forall name :: name in files ==> files[name] == tree[src + name])
  }

  /** Walks one module and leaves out what the excludes match by its path in the tree. */
  method SelectModule(tree: Tree, b: Build, m: Module) returns (selected: set<Path>)
    requires IsTree(tree) && m.path in tree
    ensures forall p :: p in selected <==> IsSelected(tree, b, m, p)
  {
    var keep := (q: Path) => !ExcludesFull(b, q);
    var visited := Walk(tree, m.path, keep);
    selected := LeaveOut(b, visited);
    SameWalk(tree, b, m, keep);
  }

  method LeaveOut(b: Build, visited: seq<Path>) returns (selected: set<Path>)
    ensures forall p :: p in selected <==> p in visited && !Excludes(b, p)
  {
    selected := {};
    for i := 0 to |visited|
      invariant forall p :: p in selected <==> (exists j :: 0 <= j < i && visited[j] == p) && !Excludes(b, p)
    {
      if !Excludes(b, visited[i]) {
        selected := selected + {visited[i]};
      }
    }
  }

  method WriteModule(tree: Tree, b: Build, src: Path, m: Module, before: Tree) returns (files: Tree)
    requires IsTree(tree) && m.path in tree && src <= m.path
    ensures forall name :: name in files <==> name in before || IsSelected(tree, b, m, src + name)
    ensures forall name :: name in files ==>
      files[name] == if IsSelected(tree, b, m, src + name) then tree[src + name] else before[name]
  {
    var selected := SelectModule(tree, b, m);
    var names := set p | p in selected :: p[|src|..];
    forall name ensures name in names <==> src + name in selected {
      NamesAreUnique(src, name);
      if name in names {
        var p :| p in selected && p[|src|..] == name;
        assert src <= p && p == src + name;
      }
    }
    files := before + map name | name in names :: tree[src + name];
  }

  lemma {:induction false} NamesAreUnique(src: Path, name: Path)
    ensures (src + name)[|src|..] == name
  {
  }

  lemma {:induction false} SameWalk(tree: Tree, b: Build, m: Module, keep: Path -> bool)
    requires forall q :: keep(q) <==> !ExcludesFull(b, q)
    ensures forall p :: IsSelected(tree, b, m, p) <==> IsReached(tree, m.path, keep, p) && !Excludes(b, p)
  {
    forall p ensures IsReached(tree, m.path, q => !ExcludesFull(b, q), p) <==> IsReached(tree, m.path, keep, p) {
    }
  }

  /** `write_wheel`, as far as it concerns modules; fails if a module is missing. */
  method WriteModules(tree: Tree, b: Build, src: Path, modules: seq<Module>) returns (files: Option<Tree>)
    requires IsTree(tree) && AreModulesOf(modules, src)
    ensures files.Some? <==> AreFound(tree, modules)
    ensures files.Some? <==> forall m :: m in modules ==>
      && (match m.init
          case Some(name) => m.path + [name] in tree && tree[m.path + [name]].File?
          case None => m.path in tree)
      && forall f :: f in m.forbidden ==> f !in tree
    ensures files.Some? ==> AreModuleFiles(tree, b, src, modules, files.value)
    ensures forall name, g :: files.Some? && name in files.value && g in b.globs ==> !b.matches(g, src + name)
  {
    if !AreFound(tree, modules) {
      return None;
    }
    var written: Tree := map[];
    for i := 0 to |modules|
      invariant AreModuleFiles(tree, b, src, modules[..i], written)
    {
      ghost var before := written;
      assert IsFound(tree, modules[i]);
      NeededMeansPresent(tree, modules[i]);
      written := WriteModule(tree, b, src, modules[i], written);
      OneMoreModule(tree, b, src, modules, i, before, written);
    }
    assert modules[..|modules|] == modules;
    NothingExcluded(tree, b, src, modules, written);
    return Some(written);
  }

  lemma {:induction false} NothingExcluded(tree: Tree, b: Build, src: Path, modules: seq<Module>, files: Tree)
    requires AreModuleFiles(tree, b, src, modules, files)
    ensures forall name, g :: name in files && g in b.globs ==> !b.matches(g, src + name)
  {
    forall name | name in files ensures !Excludes(b, src + name) {
      var i :| 0 <= i < |modules| && IsSelected(tree, b, modules[i], src + name);
    }
  }

  lemma {:induction false} NeededMeansPresent(tree: Tree, m: Module)
    requires IsTree(tree) && Needed(m) in tree
    ensures m.path in tree
  {
    PrefixesExist(tree, Needed(m), |m.path|);
    assert Needed(m)[..|m.path|] == m.path;
  }

  lemma {:induction false} OneMoreModule(tree: Tree, b: Build, src: Path, modules: seq<Module>, i: nat, before: Tree,
                                         files: Tree)
    requires i < |modules| && AreModuleFiles(tree, b, src, modules[..i], before)
    requires forall name :: name in files <==> name in before || IsSelected(tree, b, modules[i], src + name)
    requires forall name :: name in files ==>
      files[name] == if IsSelected(tree, b, modules[i], src + name) then tree[src + name] else before[name]
    ensures AreModuleFiles(tree, b, src, modules[..i + 1], files)
  {
    forall p ensures IsSelectedByAny(tree, b, modules[..i + 1], p) <==>
                     IsSelectedByAny(tree, b, modules[..i], p) || IsSelected(tree, b, modules[i], p)
    {
      if IsSelectedByAny(tree, b, modules[..i], p) {
        var j :| 0 <= j < i && IsSelected(tree, b, modules[..i][j], p);
        assert modules[..i + 1][j] == modules[..i][j];
      }
      if IsSelected(tree, b, modules[i], p) {
        assert modules[..i + 1][i] == modules[i];
      }
      if IsSelectedByAny(tree, b, modules[..i + 1], p) {
        var j :| 0 <= j < i + 1 && IsSelected(tree, b, modules[..i + 1][j], p);
        assert j < i ==> modules[..i][j] == modules[..i + 1][j];
      }
    }
  }

  /** The directories above the modules, each written once. */
  method PrefixDirectories(names: seq<Path>) returns (dirs: seq<Path>)
    ensures NoRepeats(dirs)
    ensures forall d :: d in dirs <==> exists i :: 0 <= i < |names| && d != [] && d < names[i]
  {
    dirs := [];
    for i := 0 to |names|
      invariant NoRepeats(dirs)
      invariant forall d :: d in dirs <==> exists j :: 0 <= j < i && d != [] && d < names[j]
    {
      dirs := AddAncestors(dirs, names[i]);
    }
  }

  method AddAncestors(before: seq<Path>, name: Path) returns (dirs: seq<Path>)
    requires NoRepeats(before)
    ensures NoRepeats(dirs) && forall d :: d in dirs <==> d in before || (d != [] && d < name)
  {
    dirs := before;
    var n := |name|;
    while n > 1
      invariant n <= |name| && NoRepeats(dirs)
      invariant forall d :: d in dirs <==> d in before || (d != [] && d < name && |d| >= n)
    {
      n := n - 1;
      assert forall d :: d <= name && |d| == n ==> d == name[..n];
      if name[..n] !in dirs {
        dirs := dirs + [name[..n]];
      }
    }
  }

  // ---------------------------------------------------------------------------------------------
  // Source distributions

  /** The include globs (`matchPath`), and the automaton that tells which directories may hold a match. */
  datatype Includes = Includes(matchPath: Path -> bool, matchDirectory: Path -> bool)

  /** What `match_directory` promises: it never says no if the path or anything below it matches. */
  ghost predicate NeverMisses(inc: Includes) {
    inc.matchDirectory([]) && forall p, below :: inc.matchPath(p + below) ==> inc.matchDirectory(p)
  }

  /** Every module contributes a glob for all that lies below it. */
  ghost predicate CoverModules(inc: Includes, modules: seq<Module>) {
    forall i, p :: 0 <= i < |modules| && modules[i].path < p ==> inc.matchPath(p)
  }

  /** So the walk is never kept from a module, or from anything in it. */
  lemma {:induction false} ModulesAreEntered(inc: Includes, modules: seq<Module>, i: nat, p: Path)
    requires NeverMisses(inc) && CoverModules(inc, modules) && i < |modules|
    requires p <= modules[i].path || modules[i].path <= p
    ensures inc.matchDirectory(p)
  {
    var path := modules[i].path;
    if p <= path {
      var below := path[|p|..] + ["x"];
      assert p + below == path + ["x"] && path < path + ["x"];
    } else {
      assert path < p && p + [] == p;
    }
  }

  ghost predicate IsShipped(tree: Tree, inc: Includes, b: Build, p: Path) {
    IsReached(tree, [], q => inc.matchDirectory(q) && !Excludes(b, q), p)
  }

  /** What unpacking the source distribution gives: the selected entries and the generated metadata. */
  ghost predicate IsUnpacked(tree: Tree, inc: Includes, b: Build, metadata: string, unpacked: Tree) {
    && (forall p :: p in unpacked <==> IsShipped(tree, inc, b, p) || p == [] || p == ["PKG-INFO"])
    && (forall p :: IsShipped(tree, inc, b, p) ==> unpacked[p] == tree[p])
    && unpacked[[]] == Dir
    && (!IsShipped(tree, inc, b, ["PKG-INFO"]) ==> unpacked[["PKG-INFO"]] == File(metadata))
  }

  /** `write_source_dist`; fails if a module is not valid or the excludes match `pyproject.toml`. */
  method WriteSourceDist(tree: Tree, inc: Includes, b: Build, modules: seq<Module>, metadata: string)
    returns (unpacked: Option<Tree>)
    requires IsTree(tree) && tree[[]].Dir?
    ensures unpacked.Some? <==> AreValid(tree, modules) && !Excludes(b, ["pyproject.toml"])
    ensures unpacked.Some? <==>
      && (forall m :: m in modules ==>
           && (m.init.Some? ==> m.path + [m.init.value] in tree && tree[m.path + [m.init.value]].File?)
           && forall f :: f in m.forbidden ==> f !in tree)
      && forall g :: g in b.globs ==> !b.matches(g, ["pyproject.toml"])
    ensures unpacked.Some? ==> IsUnpacked(tree, inc, b, metadata, unpacked.value)
    ensures unpacked.Some? ==> HoldsNothingExcluded(b, unpacked.value)
  {
    if !AreValid(tree, modules) || Excludes(b, ["pyproject.toml"]) {
      return None;
    }
    var written := VisitShipped(tree, inc, b);
    var files := map[[] := Dir, ["PKG-INFO"] := File(metadata)] + map p | p in written :: tree[p];
    IsUnpackedIf(tree, inc, b, metadata, written, files);
    NothingExcludedIsShipped(tree, inc, b, metadata, files);
    return Some(files);
  }

  /** No exclude matches an entry, or a directory on the way to it, except the generated metadata. */
  ghost predicate HoldsNothingExcluded(b: Build, unpacked: Tree) {
    forall p, n: nat, g :: p in unpacked && p != [] && p != ["PKG-INFO"] && n <= |p| && g in b.globs ==>
      !b.matches(g, p[..n])
  }

  lemma {:induction false} NothingExcludedIsShipped(tree: Tree, inc: Includes, b: Build, metadata: string,
                                                    unpacked: Tree)
    requires IsUnpacked(tree, inc, b, metadata, unpacked)
    ensures HoldsNothingExcluded(b, unpacked)
  {
    forall p, n: nat, g | p in unpacked && p != [] && p != ["PKG-INFO"] && n <= |p| && g in b.globs
      ensures !b.matches(g, p[..n])
    {
      assert IsShipped(tree, inc, b, p);
      assert !Excludes(b, p[..n]);
    }
  }

  method VisitShipped(tree: Tree, inc: Includes, b: Build) returns (written: set<Path>)
    requires IsTree(tree)
    ensures forall p :: p in written <==> IsShipped(tree, inc, b, p)
  {
    var keep := (q: Path) => inc.matchDirectory(q) && !Excludes(b, q);
    var visited := Walk(tree, [], keep);
    written := SelectEntries(inc, b, visited);
    forall p ensures p in written <==> IsShipped(tree, inc, b, p) {
      assert IsShipped(tree, inc, b, p) <==> IsReached(tree, [], keep, p);
      ReachedIsWritten(tree, inc, b, p);
    }
  }

  lemma {:induction false} ReachedIsWritten(tree: Tree, inc: Includes, b: Build, p: Path)
    ensures IsShipped(tree, inc, b, p) ==> p in tree && IsWritten(inc, b, p)
  {
    assert p[..|p|] == p;
  }

  /** The second check in the loop; what the walk reaches passes it. */
  method SelectEntries(inc: Includes, b: Build, visited: seq<Path>) returns (written: set<Path>)
    ensures forall p :: p in written <==> p in visited && IsWritten(inc, b, p)
  {
    written := {};
    for i := 0 to |visited|
      invariant forall p :: p in written <==> p in visited[..i] && IsWritten(inc, b, p)
    {
      if IsWritten(inc, b, visited[i]) {
        written := written + {visited[i]};
      }
    }
    assert visited[..|visited|] == visited;
  }

  lemma {:induction false} IsUnpackedIf(tree: Tree, inc: Includes, b: Build, metadata: string, written: set<Path>,
                                        files: Tree)
    requires IsTree(tree) && tree[[]].Dir? && written <= tree.Keys
    requires forall p :: p in written <==> IsShipped(tree, inc, b, p)
    requires files == map[[] := Dir, ["PKG-INFO"] := File(metadata)] + map p | p in written :: tree[p]
    ensures IsUnpacked(tree, inc, b, metadata, files)
  {
    var before, info := map[[] := Dir, ["PKG-INFO"] := File(metadata)], ["PKG-INFO"];
    assert before.Keys == {[], info} && info != [];
    assert forall p :: p in files <==> p in written || p in before;
  }

  predicate IsWritten(inc: Includes, b: Build, p: Path) {
    (inc.matchDirectory(p) || inc.matchPath(p)) && !Excludes(b, p)
  }

  // ---------------------------------------------------------------------------------------------
  // Building through a source distribution

  datatype Project = Project(tree: Tree, inc: Includes, src: Path, modules: seq<Module>, metadata: string)

  ghost predicate IsProject(x: Project) {
    && IsTree(x.tree) && x.tree[[]].Dir? && AreFound(x.tree, x.modules)
    && NeverMisses(x.inc) && CoverModules(x.inc, x.modules)
    && AreModulesOf(x.modules, x.src)
  }

  /**
   * `direct` builds the wheel in the source tree, `sdist` the source distribution, and `indirect`
   * the wheel in the unpacked source distribution.
   */
  datatype Builds = Builds(direct: Build, sdist: Build, indirect: Build)

  /** The two wheel builds have the same excludes, among them those of the source distribution. */
  ghost predicate AreBuilds(bs: Builds) {
    && bs.direct.matches == bs.sdist.matches == bs.indirect.matches && bs.direct.globs == bs.indirect.globs
    && forall g :: g in bs.sdist.globs ==> g in bs.direct.globs
  }

  /** Moving the tree does not change which full paths are excluded. */
  ghost predicate MovesAlike(bs: Builds) {
    forall p :: ExcludesFull(bs.direct, p) <==> ExcludesFull(bs.indirect, p)
  }

  /** An exclude matches both forms of a path or neither. */
  ghost predicate MatchesAlike(b: Build) {
    forall p :: ExcludesFull(b, p) <==> Excludes(b, p)
  }

  /** No prefix of the path is excluded from the source distribution. */
  predicate Survives(sdist: Build, p: Path) {
    forall n :: 0 <= n <= |p| ==> !Excludes(sdist, p[..n])
  }

  /** Everything needed to find and walk the modules survives. */
  predicate ModulesSurvive(x: Project, bs: Builds) {
    forall i :: 0 <= i < |x.modules| ==> Survives(bs.sdist, Needed(x.modules[i]))
  }

  /** Nothing that the direct build selects lies at or below something excluded from the source distribution. */
  ghost predicate SelectionSurvives(x: Project, bs: Builds) {
    forall p :: IsSelectedByAny(x.tree, bs.direct, x.modules, p) ==> Survives(bs.sdist, p)
  }

  ghost predicate IsSourceDist(x: Project, bs: Builds, unpacked: Tree) {
    IsProject(x) && AreBuilds(bs) && IsUnpacked(x.tree, x.inc, bs.sdist, x.metadata, unpacked)
  }

  /** What lies at or below a module is shipped exactly if none of its prefixes is excluded. */
  lemma {:induction false} ShippedIfSurvives(x: Project, bs: Builds, i: nat, p: Path)
    requires IsProject(x) && i < |x.modules| && p in x.tree && x.modules[i].path <= p
    ensures IsShipped(x.tree, x.inc, bs.sdist, p) <==> Survives(bs.sdist, p)
  {
    forall n | 0 <= n <= |p| ensures x.inc.matchDirectory(p[..n]) {
      assert p[..n] <= x.modules[i].path || x.modules[i].path <= p[..n];
      ModulesAreEntered(x.inc, x.modules, i, p[..n]);
    }
  }

  /** A module is found again exactly if nothing on the way to what it needs is excluded. */
  lemma {:induction false} FoundIfSurvives(x: Project, bs: Builds, unpacked: Tree, i: nat)
    requires IsSourceDist(x, bs, unpacked) && i < |x.modules|
    ensures IsFound(unpacked, x.modules[i]) <==> Survives(bs.sdist, Needed(x.modules[i]))
  {
    var m := x.modules[i];
    var needed := Needed(m);
    assert IsModuleOf(m, x.src) && IsFound(x.tree, m) && m.path <= needed && needed[0] == m.path[0];
    ShippedIfSurvives(x, bs, i, needed);
    assert needed in unpacked <==> IsShipped(x.tree, x.inc, bs.sdist, needed);
    forall f | f in m.forbidden ensures f !in unpacked {
    }
  }

  /** The indirect build selects what its excludes select in the original tree, as far as it was shipped. */
  lemma {:induction false} SelectedIfShipped(x: Project, bs: Builds, unpacked: Tree, i: nat, p: Path)
    requires IsSourceDist(x, bs, unpacked) && i < |x.modules|
    ensures IsSelected(unpacked, bs.indirect, x.modules[i], p) <==>
      IsSelected(x.tree, bs.indirect, x.modules[i], p) && Survives(bs.sdist, p)
  {
    var m := x.modules[i];
    assert IsModuleOf(m, x.src);
    if m.path <= p {
      assert p[0] == m.path[0];
      if p in x.tree {
        ShippedIfSurvives(x, bs, i, p);
      }
      assert IsShipped(x.tree, x.inc, bs.sdist, p) ==> p in x.tree;
      assert p in unpacked <==> IsShipped(x.tree, x.inc, bs.sdist, p);
    }
  }

  lemma {:induction false} SelectedByAnyIfShipped(x: Project, bs: Builds, unpacked: Tree, p: Path)
    requires IsSourceDist(x, bs, unpacked)
    ensures IsSelectedByAny(unpacked, bs.indirect, x.modules, p) <==>
      IsSelectedByAny(x.tree, bs.indirect, x.modules, p) && Survives(bs.sdist, p)
  {
    forall i | 0 <= i < |x.modules|
      ensures IsSelected(unpacked, bs.indirect, x.modules[i], p) <==>
              IsSelected(x.tree, bs.indirect, x.modules[i], p) && Survives(bs.sdist, p)
    {
      SelectedIfShipped(x, bs, unpacked, i, p);
    }
  }

  lemma {:induction false} SelectedIsUnchanged(x: Project, bs: Builds, b: Build, unpacked: Tree, p: Path)
    requires IsSourceDist(x, bs, unpacked) && IsSelectedByAny(x.tree, b, x.modules, p) && Survives(bs.sdist, p)
    ensures p in x.tree && p in unpacked && unpacked[p] == x.tree[p]
  {
    var i :| 0 <= i < |x.modules| && IsSelected(x.tree, b, x.modules[i], p);
    ShippedIfSurvives(x, bs, i, p);
  }

  lemma {:induction false} SelectedIsNamed(tree: Tree, b: Build, src: Path, modules: seq<Module>, p: Path)
    requires AreModulesOf(modules, src) && IsSelectedByAny(tree, b, modules, p)
    ensures src <= p && src + p[|src|..] == p
  {
    var i :| 0 <= i < |modules| && IsSelected(tree, b, modules[i], p);
    assert src <= modules[i].path <= p;
  }

  /** What one wheel selects in the tree is what the other one selects there and the source distribution keeps. */
  ghost predicate SelectionsAgree(x: Project, bs: Builds) {
    forall p :: IsSelectedByAny(x.tree, bs.direct, x.modules, p) <==>
      IsSelectedByAny(x.tree, bs.indirect, x.modules, p) && Survives(bs.sdist, p)
  }

  lemma {:induction false} SameFilesIfAgreed(x: Project, bs: Builds, unpacked: Tree, files: Tree)
    requires IsSourceDist(x, bs, unpacked) && AreModuleFiles(x.tree, bs.direct, x.src, x.modules, files)
    requires SelectionsAgree(x, bs)
    ensures AreModuleFiles(unpacked, bs.indirect, x.src, x.modules, files)
  {
    forall name ensures IsSelectedByAny(unpacked, bs.indirect, x.modules, x.src + name) <==> name in files {
      SelectedByAnyIfShipped(x, bs, unpacked, x.src + name);
    }
    forall name | name in files ensures files[name] == unpacked[x.src + name] {
      SelectedIsUnchanged(x, bs, bs.direct, unpacked, x.src + name);
    }
  }

  lemma {:induction false} AgreedIfSameFiles(x: Project, bs: Builds, unpacked: Tree, files: Tree)
    requires IsSourceDist(x, bs, unpacked) && AreModuleFiles(x.tree, bs.direct, x.src, x.modules, files)
    requires AreModuleFiles(unpacked, bs.indirect, x.src, x.modules, files)
    ensures SelectionsAgree(x, bs)
  {
    forall p
      ensures IsSelectedByAny(x.tree, bs.direct, x.modules, p) <==>
              IsSelectedByAny(x.tree, bs.indirect, x.modules, p) && Survives(bs.sdist, p)
    {
      SelectedByAnyIfShipped(x, bs, unpacked, p);
      SameFilesSameSelection(x.tree, bs.direct, unpacked, bs.indirect, x.src, x.modules, files, p);
    }
  }

  lemma {:induction false} SameFilesSameSelection(tree: Tree, b: Build, other: Tree, b': Build, src: Path,
                                                  modules: seq<Module>, files: Tree, p: Path)
    requires AreModulesOf(modules, src)
    requires AreModuleFiles(tree, b, src, modules, files) && AreModuleFiles(other, b', src, modules, files)
    ensures IsSelectedByAny(tree, b, modules, p) <==> IsSelectedByAny(other, b', modules, p)
  {
    if IsSelectedByAny(tree, b, modules, p) {
      SelectedIsNamed(tree, b, src, modules, p);
      assert p[|src|..] in files;
    }
    if IsSelectedByAny(other, b', modules, p) {
      SelectedIsNamed(other, b', src, modules, p);
      assert p[|src|..] in files;
    }
  }

  /**
   * Main result. The build through the source distribution succeeds with the module files `files`
   * of the direct build exactly when nothing on the way to the modules is excluded from the source
   * distribution, and the two wheels select the same in the tree, as far as it is shipped.
   */
  lemma {:induction false} ThroughSourceDist(x: Project, bs: Builds, unpacked: Tree, files: Tree)
    requires IsSourceDist(x, bs, unpacked) && AreModuleFiles(x.tree, bs.direct, x.src, x.modules, files)
    ensures AreFound(unpacked, x.modules) && AreModuleFiles(unpacked, bs.indirect, x.src, x.modules, files) <==>
      ModulesSurvive(x, bs) && SelectionsAgree(x, bs)
  {
    forall i | 0 <= i < |x.modules|
      ensures IsFound(unpacked, x.modules[i]) <==> Survives(bs.sdist, Needed(x.modules[i]))
    {
      FoundIfSurvives(x, bs, unpacked, i);
    }
    if SelectionsAgree(x, bs) {
      SameFilesIfAgreed(x, bs, unpacked, files);
    }
    if AreModuleFiles(unpacked, bs.indirect, x.src, x.modules, files) {
      AgreedIfSameFiles(x, bs, unpacked, files);
    }
  }

  lemma {:induction false} SelectedAnywhere(x: Project, bs: Builds, p: Path)
    requires AreBuilds(bs) && MovesAlike(bs)
    ensures IsSelectedByAny(x.tree, bs.direct, x.modules, p) <==> IsSelectedByAny(x.tree, bs.indirect, x.modules, p)
  {
    forall i | 0 <= i < |x.modules|
      ensures IsSelected(x.tree, bs.direct, x.modules[i], p) <==> IsSelected(x.tree, bs.indirect, x.modules[i], p)
    {
      var k := |x.modules[i].path|;
      assert IsKept(q => !ExcludesFull(bs.direct, q), p, k) <==> IsKept(q => !ExcludesFull(bs.indirect, q), p, k);
      assert Excludes(bs.direct, p) <==> Excludes(bs.indirect, p);
    }
  }

  /** Where the place of the tree does not matter, what was selected must not lie below a source exclude. */
  lemma {:induction false} ThroughSourceDistAnywhere(x: Project, bs: Builds, unpacked: Tree, files: Tree)
    requires IsSourceDist(x, bs, unpacked) && AreModuleFiles(x.tree, bs.direct, x.src, x.modules, files)
    requires MovesAlike(bs)
    ensures AreFound(unpacked, x.modules) && AreModuleFiles(unpacked, bs.indirect, x.src, x.modules, files) <==>
      ModulesSurvive(x, bs) && SelectionSurvives(x, bs)
  {
    forall p
      ensures IsSelectedByAny(x.tree, bs.direct, x.modules, p) <==> IsSelectedByAny(x.tree, bs.indirect, x.modules, p)
    {
      SelectedAnywhere(x, bs, p);
    }
    ThroughSourceDist(x, bs, unpacked, files);
  }

  /** If excludes match full paths and paths in the tree alike, only the way to the modules matters. */
  lemma {:induction false} ThroughSourceDistAlike(x: Project, bs: Builds, unpacked: Tree, files: Tree)
    requires IsSourceDist(x, bs, unpacked) && AreModuleFiles(x.tree, bs.direct, x.src, x.modules, files)
    requires MatchesAlike(bs.direct) && MatchesAlike(bs.indirect)
    ensures AreFound(unpacked, x.modules) && AreModuleFiles(unpacked, bs.indirect, x.src, x.modules, files) <==>
      ModulesSurvive(x, bs)
  {
    assert MovesAlike(bs);
    if ModulesSurvive(x, bs) {
      forall p | IsSelectedByAny(x.tree, bs.direct, x.modules, p) ensures Survives(bs.sdist, p) {
        SelectedSurvives(x, bs, p);
      }
    }
    ThroughSourceDistAnywhere(x, bs, unpacked, files);
  }

  lemma {:induction false} SelectedSurvives(x: Project, bs: Builds, p: Path)
    requires AreBuilds(bs) && MatchesAlike(bs.direct) && IsSelectedByAny(x.tree, bs.direct, x.modules, p)
    requires ModulesSurvive(x, bs)
    ensures Survives(bs.sdist, p)
  {
    var i :| 0 <= i < |x.modules| && IsSelected(x.tree, bs.direct, x.modules[i], p);
    var m := x.modules[i];
    forall n | 0 <= n <= |p| ensures !Excludes(bs.sdist, p[..n]) {
      if n < |m.path| {
        assert p[..n] == Needed(m)[..n];
      } else {
        assert !ExcludesFull(bs.direct, p[..n]);
        assert Excludes(bs.sdist, p[..n]) ==> Excludes(bs.direct, p[..n]);
      }
    }
  }

  lemma {:induction false} ParentIsShipped(tree: Tree, inc: Includes, b: Build, p: Path)
    requires IsTree(tree) && IsShipped(tree, inc, b, p) && p != []
    ensures IsShipped(tree, inc, b, p[..|p| - 1])
  {
    var parent := p[..|p| - 1];
    assert forall n :: 0 <= n <= |parent| ==> parent[..n] == p[..n];
  }

  lemma {:induction false} UnpackedIsTree(tree: Tree, inc: Includes, b: Build, metadata: string, unpacked: Tree)
    requires IsTree(tree) && IsUnpacked(tree, inc, b, metadata, unpacked)
    ensures IsTree(unpacked)
  {
    forall p | p in unpacked && p != [] ensures p[..|p| - 1] in unpacked && unpacked[p[..|p| - 1]].Dir? {
      if IsShipped(tree, inc, b, p) {
        ParentIsShipped(tree, inc, b, p);
      } else {
        assert p[..|p| - 1] == [];
      }
    }
  }

  lemma {:induction false} ModuleFilesAreUnique(tree: Tree, b: Build, src: Path, modules: seq<Module>, files: Tree,
                                                other: Tree)
    requires AreModuleFiles(tree, b, src, modules, files) && AreModuleFiles(tree, b, src, modules, other)
    ensures files == other
  {
    assert forall name :: name in files <==> name in other;
  }

  /** The three builds of a project whose tree lies at `root`, and whose source distribution is unpacked at `other`. */
  function BuildsOf(settings: Settings, matches: Matcher, root: Path, other: Path): Builds {
    var wheel := Unique(Defaults(settings) + settings.wheelExclude + settings.sourceExclude);
    Builds(Build(root, matches, wheel), Build(root, matches, Unique(Defaults(settings) + settings.sourceExclude)),
           Build(other, matches, wheel))
  }

  /** The source distribution can be built, and has what it takes to find the modules. */
  predicate IsShippable(x: Project, bs: Builds) {
    ModulesSurvive(x, bs) && !Excludes(bs.sdist, ["pyproject.toml"])
  }

  lemma {:induction false} SettingsMakeBuilds(settings: Settings, matches: Matcher, root: Path, other: Path)
    ensures AreBuilds(BuildsOf(settings, matches, root, other))
  {
    UniqueKeepsElements(Defaults(settings) + settings.wheelExclude + settings.sourceExclude);
    UniqueKeepsElements(Defaults(settings) + settings.sourceExclude);
  }

  /** No file that a default exclude matches is in the wheel. */
  ghost predicate NothingCompiled(x: Project, matches: Matcher, files: Option<Tree>) {
    forall name, g :: files.Some? && name in files.value && g in ["__pycache__", "*.pyc", "*.pyo"] ==>
      !matches(g, x.src + name)
  }

  lemma {:induction false} DefaultsLeaveOut(x: Project, b: Build, files: Option<Tree>)
    requires forall g :: g in ["__pycache__", "*.pyc", "*.pyo"] ==> g in b.globs
    requires forall name, g :: files.Some? && name in files.value && g in b.globs ==> !b.matches(g, x.src + name)
    ensures NothingCompiled(x, b.matches, files)
  {
  }

  /**
   * Builds the wheel directly and through a source distribution. The two agree exactly when the
   * source distribution can be built and keeps what it takes to find the modules, and the wheels
   * select the same; the last condition is simpler where the place of the tree does not matter, and
   * void where excludes match full paths and paths in the tree alike.
   */
  method BuildBothWays(x: Project, settings: Settings, matches: Matcher, root: Path, other: Path)
    returns (direct: Option<Tree>, indirect: Option<Tree>)
    requires IsProject(x)
    ensures direct.Some?
    ensures settings.defaultExcludes ==> NothingCompiled(x, matches, direct) && NothingCompiled(x, matches, indirect)
    ensures var bs := BuildsOf(settings, matches, root, other);
      indirect == direct <==> IsShippable(x, bs) && SelectionsAgree(x, bs)
    ensures var bs := BuildsOf(settings, matches, root, other);
      MovesAlike(bs) ==> (indirect == direct <==> IsShippable(x, bs) && SelectionSurvives(x, bs))
    ensures var bs := BuildsOf(settings, matches, root, other);
      MatchesAlike(bs.direct) && MatchesAlike(bs.indirect) ==> (indirect == direct <==> IsShippable(x, bs))
  {
    SettingsMakeBuilds(settings, matches, root, other);
    ghost var bs := BuildsOf(settings, matches, root, other);
    var wheelGlobs := WheelExcludes(settings);
    var sourceGlobs := SourceExcludes(settings);
    direct := WriteModules(x.tree, Build(root, matches, wheelGlobs), x.src, x.modules);
    if settings.defaultExcludes {
      DefaultsLeaveOut(x, Build(root, matches, wheelGlobs), direct);
    }
    var unpacked := WriteSourceDist(x.tree, x.inc, Build(root, matches, sourceGlobs), x.modules, x.metadata);
    if unpacked.None? {
      return direct, None;
    }
    indirect := BuildAgain(x, bs, Build(other, matches, wheelGlobs), unpacked.value, direct.value);
    if settings.defaultExcludes {
      DefaultsLeaveOut(x, Build(other, matches, wheelGlobs), indirect);
    }
    ThroughSourceDist(x, bs, unpacked.value, direct.value);
    if MovesAlike(bs) {
      ThroughSourceDistAnywhere(x, bs, unpacked.value, direct.value);
    }
    if MatchesAlike(bs.direct) && MatchesAlike(bs.indirect) {
      ThroughSourceDistAlike(x, bs, unpacked.value, direct.value);
    }
  }

  method BuildAgain(x: Project, ghost bs: Builds, b: Build, unpacked: Tree, ghost files: Tree)
    returns (indirect: Option<Tree>)
    requires IsSourceDist(x, bs, unpacked) && b == bs.indirect
    ensures indirect == Some(files) <==>
      AreFound(unpacked, x.modules) && AreModuleFiles(unpacked, b, x.src, x.modules, files)
    ensures forall name, g :: indirect.Some? && name in indirect.value && g in b.globs ==>
      !b.matches(g, x.src + name)
  {
    UnpackedIsTree(x.tree, x.inc, bs.sdist, x.metadata, unpacked);
    indirect := WriteModules(unpacked, b, x.src, x.modules);
    if indirect.Some? && AreModuleFiles(unpacked, b, x.src, x.modules, files) {
      ModuleFilesAreUnique(unpacked, b, x.src, x.modules, files, indirect.value);
    }
  }

  // ---------------------------------------------------------------------------------------------
  // An anchored exclude

  /**
   * The file of a namespace package `foo` in a directory that is excluded from the source
   * distribution by `/foo/secret`.
   */
  const SECRET: Path := ["foo", "secret", "a.py"]

  function AnchoredTree(): Tree {
    map[[] := Dir, ["pyproject.toml"] := File(""), ["foo"] := Dir, ["foo", "secret"] := Dir, SECRET := File("")]
  }

  /** An anchored glob without wildcards matches one path. */
  function AnchoredMatch(): Matcher {
    (g: string, p: Path) => g == "/foo/secret" && p == ["foo", "secret"]
  }

  function AnchoredProject(): Project {
    Project(AnchoredTree(), Includes((p: Path) => true, (p: Path) => true), [], [Module(["foo"], None, {})], "")
  }

  function AnchoredBuilds(): Builds {
    var here := Build(["home"], AnchoredMatch(), ["/foo/secret"]);
    Builds(here, here, Build(["tmp"], AnchoredMatch(), ["/foo/secret"]))
  }

  lemma {:induction false} AnchoredIsProject()
    ensures IsProject(AnchoredProject()) && AreBuilds(AnchoredBuilds()) && MovesAlike(AnchoredBuilds())
  {
    AnchoredIsTree();
    AnchoredFullPaths();
    AnchoredIsFound();
  }

  lemma {:induction false} AnchoredIsFound()
    ensures AreFound(AnchoredTree(), AnchoredProject().modules) && AreModulesOf(AnchoredProject().modules, [])
  {
    var m := AnchoredProject().modules[0];
    assert Needed(m) == ["foo"] && "foo"[0] != "PKG-INFO"[0];
  }

  lemma {:induction false} AnchoredIsTree()
    ensures IsTree(AnchoredTree())
  {
    assert ["foo"][..0] == [] && ["pyproject.toml"][..0] == [] && ["foo", "secret"][..1] == ["foo"];
    assert SECRET[..2] == ["foo", "secret"];
  }

  /** Full paths start with the place of the tree, which no anchored glob mentions. */
  lemma {:induction false} AnchoredFullPaths()
    ensures forall p :: !ExcludesFull(AnchoredBuilds().direct, p) && !ExcludesFull(AnchoredBuilds().indirect, p)
  {
    assert "home"[0] == 'h' && "tmp"[0] == 't' && "foo"[0] == 'f';
    forall p ensures (["home"] + p)[0] == "home" && (["tmp"] + p)[0] == "tmp" {
    }
  }

  lemma {:induction false} SecretIsSelected()
    ensures IsSelectedByAny(AnchoredTree(), AnchoredBuilds().direct, AnchoredProject().modules, SECRET)
    ensures !Survives(AnchoredBuilds().sdist, SECRET)
  {
    var x, bs := AnchoredProject(), AnchoredBuilds();
    AnchoredFullPaths();
    assert IsSelected(x.tree, bs.direct, x.modules[0], SECRET);
    assert SECRET[..2] == ["foo", "secret"];
    assert "/foo/secret" in bs.sdist.globs && bs.sdist.matches("/foo/secret", SECRET[..2]);
  }

  lemma {:induction false} AnchoredModuleSurvives()
    ensures ModulesSurvive(AnchoredProject(), AnchoredBuilds())
  {
    assert Needed(AnchoredProject().modules[0]) == ["foo"];
    forall n | 0 <= n <= 1 ensures !Excludes(AnchoredBuilds().sdist, ["foo"][..n]) {
      assert |["foo"][..n]| == n;
    }
  }

  /**
   * The wheel walk prunes by the full path, so it enters the excluded directory, and the wheel that
   * is built directly has the file in it; the one built through the source distribution has not.
   */
  lemma {:induction false} AnchoredExcludeDiffers(unpacked: Tree, files: Tree, other: Tree)
    requires IsUnpacked(AnchoredTree(), AnchoredProject().inc, AnchoredBuilds().sdist, "", unpacked)
    requires AreModuleFiles(AnchoredTree(), AnchoredBuilds().direct, [], AnchoredProject().modules, files)
    requires AreModuleFiles(unpacked, AnchoredBuilds().indirect, [], AnchoredProject().modules, other)
    ensures AreFound(unpacked, AnchoredProject().modules) && SECRET in files && SECRET !in other
  {
    AnchoredIsProject();
    AnchoredModuleSurvives();
    SecretIsSelected();
    FilesOfBoth(AnchoredProject(), AnchoredBuilds(), unpacked, files, other, SECRET);
  }

  /** In which of the two wheels a file is. */
  lemma {:induction false} FilesOfBoth(x: Project, bs: Builds, unpacked: Tree, files: Tree, other: Tree, name: Path)
    requires IsSourceDist(x, bs, unpacked) && ModulesSurvive(x, bs) && x.src == []
    requires AreModuleFiles(x.tree, bs.direct, x.src, x.modules, files)
    requires AreModuleFiles(unpacked, bs.indirect, x.src, x.modules, other)
    ensures AreFound(unpacked, x.modules)
    ensures name in files <==> IsSelectedByAny(x.tree, bs.direct, x.modules, name)
    ensures name in other <==> IsSelectedByAny(x.tree, bs.indirect, x.modules, name) && Survives(bs.sdist, name)
  {
    forall i | 0 <= i < |x.modules| ensures IsFound(unpacked, x.modules[i]) {
      FoundIfSurvives(x, bs, unpacked, i);
    }
    SelectedByAnyIfShipped(x, bs, unpacked, name);
    NamedBySelf(x.tree, bs.direct, x.modules, files, name);
    NamedBySelf(unpacked, bs.indirect, x.modules, other, name);
  }

  lemma {:induction false} NamedBySelf(tree: Tree, b: Build, modules: seq<Module>, files: Tree, name: Path)
    requires AreModuleFiles(tree, b, [], modules, files)
    ensures name in files <==> IsSelectedByAny(tree, b, modules, name)
  {
    assert [] + name == name;
  }

  // ---------------------------------------------------------------------------------------------
  // An exclude that depends on the place of the tree

  const MODULE_FILE: Path := ["b", "f.py"]

  /** A namespace package `b` in a tree that lies in a directory `a`. */
  function NestedTree(): Tree {
    map[[] := Dir, ["pyproject.toml"] := File(""), ["b"] := Dir, MODULE_FILE := File("")]
  }

  /** The exclude `a/b` is not anchored, so it matches every path that ends with it. */
  function NestedMatch(): Matcher {
    (g: string, p: Path) => g == "a/b" && |p| >= 2 && p[|p| - 2] == "a" && p[|p| - 1] == "b"
  }

  function NestedProject(): Project {
    Project(NestedTree(), Includes((p: Path) => true, (p: Path) => true), [], [Module(["b"], None, {})], "")
  }

  function NestedBuilds(): Builds {
    var here := Build(["a"], NestedMatch(), ["a/b"]);
    Builds(here, here, Build(["tmp"], NestedMatch(), ["a/b"]))
  }

  lemma {:induction false} NestedIsProject()
    ensures IsProject(NestedProject()) && AreBuilds(NestedBuilds())
  {
    NestedIsTree();
    assert Needed(NestedProject().modules[0]) == ["b"] && "b"[0] != "PKG-INFO"[0];
  }

  lemma {:induction false} NestedIsTree()
    ensures IsTree(NestedTree())
  {
    assert ["b"][..0] == [] && ["pyproject.toml"][..0] == [] && MODULE_FILE[..1] == ["b"];
  }

  lemma {:induction false} NestedIsPruned()
    ensures forall p :: !IsSelectedByAny(NestedTree(), NestedBuilds().direct, NestedProject().modules, p)
  {
    var b := NestedBuilds().direct;
    assert ["a"] + ["b"] == ["a", "b"] && b.matches("a/b", ["a", "b"]) && "a/b" in b.globs;
    assert ExcludesFull(b, ["b"]);
    forall p ensures !IsSelected(NestedTree(), b, NestedProject().modules[0], p) {
      if ["b"] <= p {
        assert p[..1] == ["b"];
      }
    }
  }

  lemma {:induction false} NothingNestedMatches(p: Path)
    requires p <= MODULE_FILE
    ensures !Excludes(NestedBuilds().sdist, p) && !ExcludesFull(NestedBuilds().indirect, p)
  {
    assert |p| == 2 ==> p == MODULE_FILE;
    assert "tmp"[0] != "a"[0] && "f.py"[0] != "b"[0];
    assert |p| == 1 ==> (["tmp"] + p)[0] == "tmp";
    assert |p| == 2 ==> (["tmp"] + p)[2] == "f.py";
  }

  lemma {:induction false} NestedIsShipped()
    ensures ModulesSurvive(NestedProject(), NestedBuilds()) && Survives(NestedBuilds().sdist, MODULE_FILE)
    ensures IsSelectedByAny(NestedTree(), NestedBuilds().indirect, NestedProject().modules, MODULE_FILE)
  {
    var x, bs := NestedProject(), NestedBuilds();
    forall n | 0 <= n <= 2
      ensures !Excludes(bs.sdist, MODULE_FILE[..n]) && !ExcludesFull(bs.indirect, MODULE_FILE[..n])
    {
      NothingNestedMatches(MODULE_FILE[..n]);
    }
    assert MODULE_FILE[..2] == MODULE_FILE;
    assert Needed(x.modules[0]) == ["b"] && forall n :: 0 <= n <= 1 ==> ["b"][..n] == MODULE_FILE[..n];
    assert IsSelected(x.tree, bs.indirect, x.modules[0], MODULE_FILE);
  }

  /** The module is left out of the wheel that is built in `a`, and is in the one built elsewhere. */
  lemma {:induction false} PlaceMatters(unpacked: Tree, files: Tree, other: Tree)
    requires IsUnpacked(NestedTree(), NestedProject().inc, NestedBuilds().sdist, "", unpacked)
    requires AreModuleFiles(NestedTree(), NestedBuilds().direct, [], NestedProject().modules, files)
    requires AreModuleFiles(unpacked, NestedBuilds().indirect, [], NestedProject().modules, other)
    ensures AreFound(unpacked, NestedProject().modules) && files == map[] && MODULE_FILE in other
  {
    NestedIsProject();
    NestedIsPruned();
    NestedIsShipped();
    FilesOfBoth(NestedProject(), NestedBuilds(), unpacked, files, other, MODULE_FILE);
    assert forall name :: name !in files;
  }
}
