/**
 * Models the arena trie of crates/uv-auth/src/cache.rs: states are allocated in one vector, each
 * with children sorted by name and found by binary search. The trie is proved to refine a map
 * from component sequences to the values last inserted under them.
 */
module UrlTrie {
  import opened Wrappers
  import opened Ordering
  import opened Realm

  type Key = seq<string>

  datatype Child = Child(name: string, state: nat)

  datatype TrieState<T> = TrieState(children: seq<Child>, value: Option<T>)

  predicate Ascending(children: seq<Child>) {
    forall i, j :: 0 <= i < j < |children| ==> Less(children[i].name, children[j].name)
  }

  // ---------------------------------------------------------------------------------------------
  // What a well-formed arena is

  /** `paths[s]` is the sequence of labels that leads from the root to state `s`. */
  ghost predicate IsArena<T>(states: seq<TrieState<T>>, paths: seq<Key>) {
    && |states| == |paths| > 0 && paths[0] == []
    && (forall s :: 0 <= s < |states| ==> Ascending(states[s].children))
    && (forall s, i :: 0 <= s < |states| && 0 <= i < |states[s].children| ==> IsEdge(paths, s, states[s].children[i]))
    && (forall c :: 0 < c < |states| ==> HasParent(states, c))
    && (forall s, t :: 0 <= s < t < |paths| ==> paths[s] != paths[t])
  }

  ghost predicate IsEdge(paths: seq<Key>, s: int, child: Child) {
    0 <= s < child.state < |paths| && paths[child.state] == paths[s] + [child.name]
  }

  ghost predicate HasParent<T>(states: seq<TrieState<T>>, c: int) {
    exists s, i :: 0 <= s < c && s < |states| && 0 <= i < |states[s].children| && states[s].children[i].state == c
  }

  /** The values stored in the arena are exactly those of the map. */
  ghost predicate Holds<T>(states: seq<TrieState<T>>, paths: seq<Key>, contents: map<Key, T>) {
    && |states| == |paths|
    && (forall k :: k in contents ==> k in paths)
    && (forall s :: 0 <= s < |states| ==> states[s].value == Lookup(contents, paths[s]))
  }

  function Lookup<T>(contents: map<Key, T>, key: Key): Option<T> {
    if key in contents then Some(contents[key]) else None
  }

  /** No state is without purpose: every path leads on to one of the keys. */
  ghost predicate Live(paths: seq<Key>, keys: set<Key>) {
    forall s :: 0 < s < |paths| ==> exists k :: k in keys && paths[s] <= k
  }

  // ---------------------------------------------------------------------------------------------
  // Following edges

  lemma {:induction false} ChildOf<T>(states: seq<TrieState<T>>, paths: seq<Key>, s: nat, name: string, c: nat)
    requires IsArena(states, paths) && s < |states| && c < |states| && paths[c] == paths[s] + [name]
    ensures exists i :: 0 <= i < |states[s].children| && states[s].children[i] == Child(name, c)
  {
    assert HasParent(states, c);
    var t, i :| 0 <= t < c && 0 <= i < |states[t].children| && states[t].children[i].state == c;
    assert IsEdge(paths, t, states[t].children[i]);
    var q := paths[c];
    assert q[..|q| - 1] == paths[s] && q[..|q| - 1] == paths[t];
    assert q[|q| - 1] == name && q[|q| - 1] == states[t].children[i].name;
  }

  /** Every state but the root has exactly one incoming edge, and its source has a smaller index. */
  lemma {:induction false} OneParent<T>(states: seq<TrieState<T>>, paths: seq<Key>, c: nat, s: nat, i: nat, t: nat,
                                        j: nat)
    requires IsArena(states, paths) && 0 < c < |states|
    requires s < |states| && i < |states[s].children| && states[s].children[i].state == c
    requires t < |states| && j < |states[t].children| && states[t].children[j].state == c
    ensures HasParent(states, c) && s < c && s == t && i == j
  {
    assert IsEdge(paths, s, states[s].children[i]) && IsEdge(paths, t, states[t].children[j]);
    var q := paths[c];
    assert q[..|q| - 1] == paths[s] && q[..|q| - 1] == paths[t];
    assert q[|q| - 1] == states[s].children[i].name && q[|q| - 1] == states[t].children[j].name;
    LessIrreflexive(q[|q| - 1]);
  }

  /** Paths are closed under taking prefixes. */
  lemma {:induction false} PrefixClosed<T>(states: seq<TrieState<T>>, paths: seq<Key>, c: nat, p: Key)
    requires IsArena(states, paths) && c < |states| && p <= paths[c]
    ensures p in paths
    decreases c
  {
    if p != paths[c] {
      assert c > 0;
      assert HasParent(states, c);
      var s, i :| 0 <= s < c && 0 <= i < |states[s].children| && states[s].children[i].state == c;
      assert IsEdge(paths, s, states[s].children[i]);
      assert paths[s] == paths[c][..|paths[c]| - 1];
      assert p <= paths[s];
      PrefixClosed(states, paths, s, p);
    }
  }

  // ---------------------------------------------------------------------------------------------
  // Growing

  /** Allocates a state and links it below state `s` at position `i`. */
  function Grow<T>(states: seq<TrieState<T>>, s: nat, i: nat, name: string): seq<TrieState<T>>
    requires s < |states| && i <= |states[s].children|
  {
    var children := states[s].children;
    var linked := children[..i] + [Child(name, |states|)] + children[i..];
    states[s := states[s].(children := linked)] + [TrieState([], None)]
  }

  predicate IsSlot(children: seq<Child>, i: nat, name: string) {
    && i <= |children|
    && (forall j :: 0 <= j < i ==> Less(children[j].name, name))
    && (forall j :: i <= j < |children| ==> Less(name, children[j].name))
  }

  /** Adding a child keeps the arena well-formed; `path` is the path of the new state. */
  lemma {:induction false} GrowKeepsArena<T>(states: seq<TrieState<T>>, paths: seq<Key>, s: nat, i: nat, name: string,
                                             path: Key)
    requires IsArena(states, paths) && s < |states| && IsSlot(states[s].children, i, name) && path == paths[s] + [name]
    ensures IsArena(Grow(states, s, i, name), paths + [path])
  {
    var grown := Grow(states, s, i, name);
    GrowEdges(states, paths, s, i, name, path);
    forall c | 0 < c < |grown| ensures HasParent(grown, c) {
      GrowParents(states, paths, s, i, name, c);
    }
    NoSuchPath(states, paths, s, i, name);
    GrowKeepsAscending(states[s].children, i, name, |states|);
  }

  lemma {:induction false} GrowKeepsAscending(children: seq<Child>, i: nat, name: string, state: nat)
    requires Ascending(children) && IsSlot(children, i, name)
    ensures Ascending(children[..i] + [Child(name, state)] + children[i..])
  {
  }

  lemma {:induction false} GrowParents<T>(states: seq<TrieState<T>>, paths: seq<Key>, s: nat, i: nat, name: string,
                                          c: nat)
    requires IsArena(states, paths) && s < |states| && i <= |states[s].children| && 0 < c <= |states|
    ensures HasParent(Grow(states, s, i, name), c)
  {
    var grown := Grow(states, s, i, name);
    if c == |states| {
      assert grown[s].children[i].state == c;
    } else {
      assert HasParent(states, c);
      var t, j :| 0 <= t < c && 0 <= j < |states[t].children| && states[t].children[j].state == c;
      var j' := if t == s && j >= i then j + 1 else j;
      assert grown[t].children[j'].state == c;
    }
  }

  lemma {:induction false} GrowEdges<T>(states: seq<TrieState<T>>, paths: seq<Key>, s: nat, i: nat, name: string,
                                        path: Key)
    requires IsArena(states, paths) && s < |states| && IsSlot(states[s].children, i, name) && path == paths[s] + [name]
    ensures var grown := Grow(states, s, i, name);
      forall t, j :: 0 <= t < |grown| && 0 <= j < |grown[t].children| ==>
        IsEdge(paths + [path], t, grown[t].children[j])
  {
    var grown := Grow(states, s, i, name);
    forall t, j | 0 <= t < |grown| && 0 <= j < |grown[t].children|
      ensures IsEdge(paths + [path], t, grown[t].children[j])
    {
      if t == s && j != i {
        assert grown[t].children[j] == states[t].children[if j > i then j - 1 else j];
        assert IsEdge(paths, t, states[t].children[if j > i then j - 1 else j]);
      } else if t < |states| && t != s {
        assert IsEdge(paths, t, states[t].children[j]);
      }
    }
  }

  lemma {:induction false} GrowKeepsValues<T>(states: seq<TrieState<T>>, paths: seq<Key>, contents: map<Key, T>,
                                              s: nat, i: nat, name: string, path: Key)
    requires IsArena(states, paths) && Holds(states, paths, contents)
    requires s < |states| && IsSlot(states[s].children, i, name) && path == paths[s] + [name]
    ensures Holds(Grow(states, s, i, name), paths + [path], contents)
  {
    NoSuchPath(states, paths, s, i, name);
  }

  // ---------------------------------------------------------------------------------------------
  // Counting

  ghost function NonEmptyPrefixes(keys: set<Key>): set<Key> {
    set k, n | k in keys && 0 < n <= |k| :: k[..n]
  }

  ghost function Elements(paths: seq<Key>): set<Key> {
    set p | p in paths
  }

  lemma {:induction false} DistinctCount(paths: seq<Key>)
    requires forall s, t :: 0 <= s < t < |paths| ==> paths[s] != paths[t]
    ensures |Elements(paths)| == |paths|
    decreases |paths|
  {
    if paths != [] {
      var n := |paths| - 1;
      DistinctCount(paths[..n]);
      assert Elements(paths) == Elements(paths[..n]) + {paths[n]};
      assert paths[n] !in Elements(paths[..n]);
    }
  }

  /** The arena has the root and one state for each distinct non-empty prefix of a key. */
  lemma {:induction false} StateCount<T>(states: seq<TrieState<T>>, paths: seq<Key>, contents: map<Key, T>)
    requires IsArena(states, paths) && Holds(states, paths, contents) && Live(paths, contents.Keys)
    ensures |states| == 1 + |NonEmptyPrefixes(contents.Keys)|
  {
    PathsArePrefixes(states, paths, contents);
    DistinctCount(paths[1..]);
  }

  lemma {:induction false} PathsArePrefixes<T>(states: seq<TrieState<T>>, paths: seq<Key>, contents: map<Key, T>)
    requires IsArena(states, paths) && Holds(states, paths, contents) && Live(paths, contents.Keys)
    ensures Elements(paths[1..]) == NonEmptyPrefixes(contents.Keys)
  {
    forall p | p in Elements(paths[1..]) ensures p in NonEmptyPrefixes(contents.Keys) {
      var s :| 0 < s < |paths| && paths[s] == p;
      assert paths[0] != paths[s];
      PathIsPrefix(paths, contents.Keys, s);
    }
    forall p | p in NonEmptyPrefixes(contents.Keys) ensures p in Elements(paths[1..]) {
      PrefixIsPath(states, paths, contents, p);
    }
  }

  lemma {:induction false} PathIsPrefix(paths: seq<Key>, keys: set<Key>, s: nat)
    requires Live(paths, keys) && 0 < s < |paths| && paths[s] != []
    ensures paths[s] in NonEmptyPrefixes(keys)
  {
    var k :| k in keys && paths[s] <= k;
    assert paths[s] == k[..|paths[s]|];
  }

  lemma {:induction false} PrefixIsPath<T>(states: seq<TrieState<T>>, paths: seq<Key>, contents: map<Key, T>, p: Key)
    requires IsArena(states, paths) && Holds(states, paths, contents) && p in NonEmptyPrefixes(contents.Keys)
    ensures p in paths[1..]
  {
    var k, n :| k in contents.Keys && 0 < n <= |k| && p == k[..n];
    var c :| 0 <= c < |paths| && paths[c] == k;
    PrefixClosed(states, paths, c, p);
    assert paths == [paths[0]] + paths[1..];
  }

  // ---------------------------------------------------------------------------------------------
  // The trie

  /** `binary_search_by`: where a label is among the children, or where it belongs. */
  method Index(children: seq<Child>, name: string) returns (found: bool, i: nat)
    requires Ascending(children)
    ensures found ==> i < |children| && children[i].name == name
    ensures !found ==> IsSlot(children, i, name)
  {
    var lo, hi := 0, |children|;
    while lo < hi
      invariant 0 <= lo <= hi <= |children|
      invariant forall j :: 0 <= j < lo ==> Less(children[j].name, name)
      invariant forall j :: hi <= j < |children| ==> Less(name, children[j].name)
    {
      var mid := (lo + hi) / 2;
      var here := children[mid].name;
      if here == name {
        return true, mid;
      }
      LessTotal(here, name);
      if Less(here, name) {
        forall j | 0 <= j < mid ensures Less(children[j].name, name) {
          LessTransitive(children[j].name, here, name);
        }
        lo := mid + 1;
      } else {
        forall j | mid < j < |children| ensures Less(name, children[j].name) {
          LessTransitive(name, here, children[j].name);
        }
        hi := mid;
      }
    }
    return false, lo;
  }

  function NonEmpty(segments: seq<string>): seq<string> {
    if segments == [] then []
    else (if segments[0] == "" then [] else [segments[0]]) + NonEmpty(segments[1..])
  }

  /** The path of a URL in the trie: its realm, then its segments that are not empty. */
  function Components(url: Url): (r: Key)
    ensures r != [] && r[0] == Text(RealmOf(url))
  {
    [Text(RealmOf(url))] + NonEmpty(url.segments)
  }

  /** Where the segments of the URL that are not empty stand, in order. */
  ghost predicate ArePlaces(places: seq<nat>, segments: seq<string>, kept: seq<string>) {
    && |places| == |kept|
    && (forall j, k :: 0 <= j < k < |places| ==> places[j] < places[k])
    && (forall k :: 0 <= k < |places| ==> places[k] < |segments| && segments[places[k]] == kept[k])
    && (forall i: nat :: i < |segments| ==> (i in places <==> segments[i] != ""))
  }

  lemma {:induction false} NonEmptyLast(segments: seq<string>, last: string)
    ensures NonEmpty(segments + [last]) == NonEmpty(segments) + (if last == "" then [] else [last])
  {
    var all := segments + [last];
    if segments != [] {
      assert all[1..] == segments[1..] + [last];
      NonEmptyLast(segments[1..], last);
    } else {
      assert all[1..] == [];
    }
  }

  lemma {:induction false} OnePlaceMore(places: seq<nat>, segments: seq<string>, kept: seq<string>, last: string)
    requires ArePlaces(places, segments, kept) && last != ""
    ensures ArePlaces(places + [|segments|], segments + [last], kept + [last])
  {
    var more, all := places + [|segments|], segments + [last];
    forall i: nat | i < |all| ensures i in more <==> all[i] != "" {
      assert i in more <==> i in places || i == |segments|;
    }
  }

  lemma {:induction false} NoPlaceMore(places: seq<nat>, segments: seq<string>, kept: seq<string>)
    requires ArePlaces(places, segments, kept)
    ensures ArePlaces(places, segments + [""], kept)
  {
    var all := segments + [""];
    forall i: nat | i < |all| ensures i in places <==> all[i] != "" {
    }
  }

  lemma {:induction false} PlacesOf(segments: seq<string>) returns (places: seq<nat>)
    ensures ArePlaces(places, segments, NonEmpty(segments))
  {
    if segments == [] {
      return [];
    }
    var n := |segments| - 1;
    var before, last := segments[..n], segments[n];
    places := PlacesOf(before);
    NonEmptyLast(before, last);
    assert segments == before + [last];
    if last == "" {
      NoPlaceMore(places, before, NonEmpty(before));
      assert NonEmpty(before) + [] == NonEmpty(before);
    } else {
      OnePlaceMore(places, before, NonEmpty(before), last);
      places := places + [n];
    }
  }

  /** After the realm come all segments that are not empty, in order, and nothing else. */
  lemma {:induction false} ComponentsKeepOrder(url: Url) returns (places: seq<nat>)
    ensures |Components(url)| == 1 + |places| && Components(url)[0] == Text(RealmOf(url))
    ensures ArePlaces(places, url.segments, Components(url)[1..])
  {
    places := PlacesOf(url.segments);
  }

  /** `r` is the value of the shortest non-empty prefix of `key` in the map, or absent with it. */
  ghost predicate IsShortestPrefix<T>(contents: map<Key, T>, key: Key, r: Option<T>) {
    match r
    case Some(v) =>
      exists k :: 1 <= k <= |key| && key[..k] in contents && contents[key[..k]] == v
                  && forall j :: 1 <= j < k ==> key[..j] !in contents
    case None => forall k :: 1 <= k <= |key| ==> key[..k] !in contents
  }

  lemma {:induction false} ShortestPrefixIsUnique<T>(contents: map<Key, T>, key: Key, r: Option<T>, r': Option<T>)
    requires IsShortestPrefix(contents, key, r) && IsShortestPrefix(contents, key, r')
    ensures r == r'
  {
  }

  /** A key found for a URL was inserted for the same realm: lookups never cross realms. */
  lemma {:induction false} LookupStaysInRealm(url: Url, other: Url)
    requires Components(other) <= Components(url)
    requires WellFormed(RealmOf(url)) && WellFormed(RealmOf(other)) && url.host.Some? && other.host.Some?
    ensures RealmOf(url) == RealmOf(other)
  {
    assert Components(url)[0] == Components(other)[0];
    TextIdentifiesRealm(RealmOf(url), RealmOf(other));
  }

  /** Where the arena stops, no longer prefix of the key can be in the map either. */
  lemma {:induction false} NoLongerKeys<T>(states: seq<TrieState<T>>, paths: seq<Key>, contents: map<Key, T>, s: nat,
                                           i: nat, key: Key, k: nat)
    requires IsArena(states, paths) && Holds(states, paths, contents)
    requires s < |states| && k < |key| && paths[s] == key[..k] && IsSlot(states[s].children, i, key[k])
    ensures forall j :: k < j <= |key| ==> key[..j] !in contents
  {
    forall j | k < j <= |key| ensures key[..j] !in contents {
      assert key[..k + 1] == paths[s] + [key[k]];
      NoSuchPath(states, paths, s, i, key[k]);
      if key[..j] in contents {
        var c :| 0 <= c < |paths| && paths[c] == key[..j];
        assert key[..k + 1] <= key[..j];
        PrefixClosed(states, paths, c, key[..k + 1]);
      }
    }
  }

  lemma {:induction false} NoSuchPath<T>(states: seq<TrieState<T>>, paths: seq<Key>, s: nat, i: nat, name: string)
    requires IsArena(states, paths) && s < |states| && IsSlot(states[s].children, i, name)
    ensures paths[s] + [name] !in paths
  {
    forall c | 0 <= c < |paths| ensures paths[c] != paths[s] + [name] {
      if paths[c] == paths[s] + [name] {
        ChildOf(states, paths, s, name, c);
        LessIrreflexive(name);
      }
    }
  }

  /** `TrieState::get`: the state reached from `state` by a component of the key, if any. */
  method Descend<T>(states: seq<TrieState<T>>, ghost paths: seq<Key>, ghost contents: map<Key, T>,
                    state: nat, key: Key, k: nat)
    returns (next: Option<nat>)
    requires IsArena(states, paths) && Holds(states, paths, contents)
    requires state < |states| && k < |key| && paths[state] == key[..k]
    ensures next.Some? ==> next.value < |states| && paths[next.value] == key[..k + 1]
    ensures next.None? ==> forall j :: k < j <= |key| ==> key[..j] !in contents
  {
    var found, i := Index(states[state].children, key[k]);
    if found {
      FollowEdge(states, paths, key, state, i, k);
      return Some(states[state].children[i].state);
    }
    NoLongerKeys(states, paths, contents, state, i, key, k);
    return None;
  }

  method Find<T>(states: seq<TrieState<T>>, ghost paths: seq<Key>, ghost contents: map<Key, T>, key: Key)
    returns (r: Option<T>)
    requires IsArena(states, paths) && Holds(states, paths, contents) && key != []
    ensures IsShortestPrefix(contents, key, r)
  {
    var state := 0;
    for k := 0 to |key|
      invariant 0 <= state < |states| && paths[state] == key[..k]
      invariant forall j :: 1 <= j <= k ==> key[..j] !in contents
    {
      var next := Descend(states, paths, contents, state, key, k);
      if next.None? {
        return None;
      }
      state := next.value;
      if states[state].value.Some? {
        return states[state].value;
      }
    }
    return states[state].value;
  }

  /** The arena while `key` is being inserted: states on the way to it may lead to no other key yet. */
  ghost predicate Growing<T>(states: seq<TrieState<T>>, paths: seq<Key>, contents: map<Key, T>, key: Key) {
    IsArena(states, paths) && Holds(states, paths, contents) && Live(paths, contents.Keys + {key})
  }

  lemma {:induction false} GrowStep<T>(states: seq<TrieState<T>>, paths: seq<Key>, contents: map<Key, T>, key: Key,
                                       s: nat, i: nat, k: nat, path: Key)
    requires Growing(states, paths, contents, key)
    requires s < |states| && k < |key| && paths[s] == key[..k] && IsSlot(states[s].children, i, key[k])
    requires path == key[..k + 1]
    ensures Growing(Grow(states, s, i, key[k]), paths + [path], contents, key)
    ensures |Grow(states, s, i, key[k])| == |states| + 1 == |paths| + 1
  {
    NextPrefix(key, k);
    GrowKeepsAll(states, paths, contents, contents.Keys + {key}, key, s, i, key[k], path);
  }

  lemma {:induction false} NextPrefix(key: Key, k: nat)
    requires k < |key|
    ensures key[..k + 1] == key[..k] + [key[k]] && key[..k + 1] <= key
  {
  }

  lemma {:induction false} GrowKeepsAll<T>(states: seq<TrieState<T>>, paths: seq<Key>, contents: map<Key, T>,
                                           keys: set<Key>, key: Key,
                                           s: nat, i: nat, name: string, path: Key)
    requires IsArena(states, paths) && Holds(states, paths, contents) && Live(paths, keys) && key in keys && path <= key
    requires s < |states| && IsSlot(states[s].children, i, name) && path == paths[s] + [name]
    ensures IsArena(Grow(states, s, i, name), paths + [path])
    ensures Holds(Grow(states, s, i, name), paths + [path], contents)
    ensures Live(paths + [path], keys)
  {
    GrowKeepsArena(states, paths, s, i, name, path);
    GrowKeepsValues(states, paths, contents, s, i, name, path);
    LiveGrows(paths, keys, key, path);
  }

  lemma {:induction false} FollowEdge<T>(states: seq<TrieState<T>>, paths: seq<Key>, key: Key, s: nat, i: nat, k: nat)
    requires IsArena(states, paths) && s < |states| && k < |key| && paths[s] == key[..k]
    requires i < |states[s].children| && states[s].children[i].name == key[k]
    ensures states[s].children[i].state < |states| && paths[states[s].children[i].state] == key[..k + 1]
  {
    assert IsEdge(paths, s, states[s].children[i]);
    assert key[..k + 1] == key[..k] + [key[k]];
  }

  lemma {:induction false} LiveGrows(paths: seq<Key>, keys: set<Key>, key: Key, path: Key)
    requires Live(paths, keys) && key in keys && path <= key
    ensures Live(paths + [path], keys)
  {
  }

  /** One turn of the loop in `UrlTrie::insert`: follows the edge for a component, adding it if missing. */
  method Extend<T>(states: seq<TrieState<T>>, ghost paths: seq<Key>, ghost contents: map<Key, T>,
                   state: nat, key: Key, k: nat)
    returns (states': seq<TrieState<T>>, ghost paths': seq<Key>, next: nat)
    requires Growing(states, paths, contents, key)
    requires state < |states| && k < |key| && paths[state] == key[..k]
    ensures Growing(states', paths', contents, key)
    ensures next < |states'| == |paths'| && paths'[next] == key[..k + 1]
  {
    var found, i := Index(states[state].children, key[k]);
    if found {
      FollowEdge(states, paths, key, state, i, k);
      states', paths', next := states, paths, states[state].children[i].state;
    } else {
      GrowStep(states, paths, contents, key, state, i, k, key[..k + 1]);
      states', paths', next := Grow(states, state, i, key[k]), paths + [key[..k + 1]], |states|;
    }
  }

  /** Storing the value at the end of the key completes the insertion. */
  lemma {:induction false} SetValue<T>(states: seq<TrieState<T>>, paths: seq<Key>, contents: map<Key, T>, key: Key,
                                       s: nat, value: T)
    requires Growing(states, paths, contents, key) && s < |states| && paths[s] == key
    ensures var states', contents' := states[s := states[s].(value := Some(value))], contents[key := value];
      IsArena(states', paths) && Holds(states', paths, contents') && Live(paths, contents'.Keys)
  {
    var states' := states[s := states[s].(value := Some(value))];
    assert forall t :: 0 <= t < |states| ==> states'[t].children == states[t].children;
    forall c | 0 < c < |states| ensures HasParent(states', c) {
      assert HasParent(states, c);
    }
    assert contents[key := value].Keys == contents.Keys + {key};
  }

  /** The loop of `UrlTrie::insert`: makes sure that the path of the key exists. */
  method Build<T>(states: seq<TrieState<T>>, ghost paths: seq<Key>, ghost contents: map<Key, T>, key: Key)
    returns (states': seq<TrieState<T>>, ghost paths': seq<Key>, state: nat)
    requires Growing(states, paths, contents, key)
    ensures Growing(states', paths', contents, key)
    ensures state < |states'| == |paths'| && paths'[state] == key
  {
    states', paths', state := states, paths, 0;
    for k := 0 to |key|
      invariant Growing(states', paths', contents, key)
      invariant state < |states'| == |paths'| && paths'[state] == key[..k]
    {
      states', paths', state := Extend(states', paths', contents, state, key, k);
    }
    assert key[..|key|] == key;
  }

  class UrlTrie<T> {
    var states: seq<TrieState<T>>
    ghost var paths: seq<Key>
    ghost var contents: map<Key, T>

    ghost predicate Valid()
      reads this
    {
      IsArena(states, paths) && Holds(states, paths, contents) && Live(paths, contents.Keys)
    }

    constructor ()
      ensures Valid() && contents == map[]
    {
      states, paths, contents := [TrieState([], None)], [[]], map[];
    }

    method Get(url: Url) returns (r: Option<T>)
      requires Valid()
      ensures IsShortestPrefix(contents, Components(url), r)
    {
      r := Find(states, paths, contents, Components(url));
    }

    method Insert(url: Url, value: T)
      requires Valid()
      modifies this
      ensures Valid() && contents == old(contents)[Components(url) := value]
    {
      var key := Components(url);
      var state;
      states, paths, state := Build(states, paths, contents, key);
      SetValue(states, paths, contents, key, state, value);
      states := states[state := states[state].(value := Some(value))];
      contents := contents[key := value];
    }
  }
}
