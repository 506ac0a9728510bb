/**
 * Models the credentials cache of crates/uv-auth/src/cache.rs: one map from realm and username to
 * credentials, and one trie from URLs to credentials. The pure functions describe what each of its
 * operations reads and writes; the class performs them.
 */
module CredentialsCache {
  import opened Wrappers
  import opened Realm
  import opened Credentials
  import opened UrlTrie

  /** What a request can be authenticated with; a signer computes a signature for each request. */
  datatype Authentication = Plain(credentials: Credentials) | Signer

  function UserOf(a: Authentication): Option<string> {
    if a.Plain? && a.credentials.Basic? then a.credentials.username else None
  }

  function PasswordOf(a: Authentication): Option<string> {
    if a.Plain? && a.credentials.Basic? then a.credentials.password else None
  }

  predicate IsAuthenticated(a: Authentication) {
    match a
    case Plain(Basic(_, password)) => password.Some?
    case Plain(Bearer(token)) => token != []
    case Signer => true
  }

  predicate IsEmpty(a: Authentication) {
    match a
    case Plain(Basic(username, password)) => username.None? && password.None?
    case Plain(Bearer(token)) => token == []
    case Signer => false
  }

  datatype RealmKey = RealmKey(realm: Realm, username: Option<string>)

  type RealmMap = map<RealmKey, Authentication>
  type UrlMap = map<Key, Authentication>

  // ---------------------------------------------------------------------------------------------
  // Reading

  /** With a username, only credentials that have a password will do. */
  function InRealm(realms: RealmMap, realm: Realm, username: Option<string>): Option<Authentication> {
    var key := RealmKey(realm, username);
    if key !in realms || (username.Some? && PasswordOf(realms[key]).None?) then None else Some(realms[key])
  }

  /** The value at the shortest prefix, of length `k` or more, that the map holds. */
  function Shortest(urls: UrlMap, key: Key, k: nat): Option<Authentication>
    decreases |key| + 1 - k
  {
    if k > |key| then None
    else if key[..k] in urls then Some(urls[key[..k]])
    else Shortest(urls, key, k + 1)
  }

  lemma {:induction false} ShortestIsShortest(urls: UrlMap, key: Key, k: nat)
    requires 1 <= k <= |key| + 1 && forall j :: 1 <= j < k ==> key[..j] !in urls
    ensures IsShortestPrefix(urls, key, Shortest(urls, key, k))
    decreases |key| + 1 - k
  {
    if k <= |key| && key[..k] !in urls {
      ShortestIsShortest(urls, key, k + 1);
    }
  }

  /** What `get_url` makes of the value found in the trie. */
  function IfUsable(found: Option<Authentication>, username: Option<string>): Option<Authentication> {
    if found.Some? && username.Some? && (UserOf(found.value) != username || PasswordOf(found.value).None?) then None
    else found
  }

  function AtUrl(urls: UrlMap, url: Url, username: Option<string>): Option<Authentication> {
    IfUsable(Shortest(urls, Components(url), 1), username)
  }

  /** What is found for a URL was inserted for a prefix of it. */
  lemma {:induction false} AtUrlIsPrefix(urls: UrlMap, url: Url, username: Option<string>)
    requires AtUrl(urls, url, username).Some?
    ensures exists key :: key in urls && key <= Components(url) && urls[key] == AtUrl(urls, url, username).value
  {
    var key := Components(url);
    ShortestIsShortest(urls, key, 1);
    var k :| 1 <= k <= |key| && key[..k] in urls && urls[key[..k]] == AtUrl(urls, url, username).value;
    assert key[..k] <= key;
  }

  // ---------------------------------------------------------------------------------------------
  // Writing

  /** Credentials that authenticate replace any entry; a mere username only an entry without password. */
  function WithRealm(realms: RealmMap, key: RealmKey, a: Authentication): RealmMap {
    if IsEmpty(a) then realms
    else if IsAuthenticated(a) || key !in realms || PasswordOf(realms[key]).None? then realms[key := a]
    else realms
  }

  function WithUser(realms: RealmMap, realm: Realm, a: Authentication): RealmMap {
    if UserOf(a).Some? then WithRealm(realms, RealmKey(realm, UserOf(a)), a) else realms
  }

  /** An entry under a username holds credentials of that user. */
  ghost predicate AreFiled(realms: RealmMap) {
    forall key :: key in realms && key.username.Some? ==> UserOf(realms[key]) == key.username
  }

  /** Both writes of `insert` keep entries filed under their own username. */
  lemma {:induction false} WritesKeepFiled(realms: RealmMap, realm: Realm, a: Authentication)
    requires AreFiled(realms)
    ensures AreFiled(WithUser(realms, realm, a)) && AreFiled(WithRealm(realms, RealmKey(realm, None), a))
  {
  }

  /** Every password that the entries for named users have is still there, or replaced by another. */
  ghost predicate KeepsPasswords(before: RealmMap, after: RealmMap) {
    forall key :: key in before && key.username.Some? && PasswordOf(before[key]).Some? ==>
      key in after && PasswordOf(after[key]).Some?
  }

  lemma {:induction false} WritesKeepPasswords(realms: RealmMap, realm: Realm, a: Authentication)
    ensures KeepsPasswords(realms, WithUser(realms, realm, a))
    ensures KeepsPasswords(realms, WithRealm(realms, RealmKey(realm, None), a))
  {
  }

  /**
   * For the entry without a username it is otherwise: it stops authenticating exactly when a token
   * or signer is overwritten by a mere username, and loses a password exactly to a token or signer.
   */
  lemma {:induction false} WhenEntriesAreLost(realms: RealmMap, key: RealmKey, a: Authentication)
    requires key in realms
    ensures var old', new' := realms[key], WithRealm(realms, key, a)[key];
      && (IsAuthenticated(old') && !IsAuthenticated(new') <==>
           IsAuthenticated(old') && PasswordOf(old').None? && !IsAuthenticated(a) && !IsEmpty(a))
      && (PasswordOf(old').Some? && PasswordOf(new').None? <==>
           PasswordOf(old').Some? && PasswordOf(a).None? && IsAuthenticated(a))
  {
    assert IsAuthenticated(a) ==> !IsEmpty(a) by {
      match a
      case Plain(Basic(_, _)) =>
      case Plain(Bearer(_)) =>
      case Signer =>
    }
    assert PasswordOf(realms[key]).Some? ==> IsAuthenticated(realms[key]);
  }

  /** A token is lost when a request with a mere username succeeds in its realm. */
  lemma {:induction false} TokenIsOverwritten(realm: Realm)
    ensures var token, user := Plain(Bearer([116])), Plain(Basic(Some("u"), None));
      WithRealm(map[RealmKey(realm, None) := token], RealmKey(realm, None), user) == map[RealmKey(realm, None) := user]
  {
  }

  /** Credentials are empty exactly if they neither authenticate nor name a user. */
  lemma {:induction false} EmptyIff(a: Authentication)
    ensures IsEmpty(a) <==> !IsAuthenticated(a) && UserOf(a).None?
    ensures PasswordOf(a).Some? ==> IsAuthenticated(a)
    ensures UserOf(a).Some? && IsAuthenticated(a) ==> PasswordOf(a).Some?
  {
    match a
    case Plain(Basic(_, _)) =>
    case Plain(Bearer(_)) =>
    case Signer =>
  }

  /** The realm has the credentials for requests without a username, and for those with theirs. */
  predicate HasStored(realms: RealmMap, realm: Realm, a: Authentication) {
    && RealmKey(realm, None) in realms && realms[RealmKey(realm, None)] == a
    && (UserOf(a).Some? ==> RealmKey(realm, UserOf(a)) in realms && realms[RealmKey(realm, UserOf(a))] == a)
  }

  /** The two writes of an insertion one by one: each stores credentials that authenticate at its own key only. */
  lemma {:induction false} WritesStore(realms: RealmMap, realm: Realm, a: Authentication)
    requires IsAuthenticated(a)
    ensures UserOf(a).Some? ==> WithUser(realms, realm, a) == realms[RealmKey(realm, UserOf(a)) := a]
    ensures UserOf(a).None? ==> WithUser(realms, realm, a) == realms
    ensures WithRealm(realms, RealmKey(realm, None), a) == realms[RealmKey(realm, None) := a]
  {
    EmptyIff(a);
  }

  // ---------------------------------------------------------------------------------------------
  // The cache itself

  class CredentialsCache {
    var realms: RealmMap
    const trie: UrlTrie<Authentication>

    ghost predicate Valid()
      reads this, trie
    {
      trie.Valid()
    }

    constructor ()
      ensures Valid() && realms == map[] && trie.contents == map[] && fresh(trie)
    {
      realms := map[];
      trie := new UrlTrie();
    }

    method GetRealm(realm: Realm, username: Option<string>) returns (r: Option<Authentication>)
      requires Valid()
      ensures r == InRealm(realms, realm, username)
      ensures r.Some? && username.Some? ==> PasswordOf(r.value).Some?
      ensures r.Some? && username.Some? && AreFiled(realms) ==> UserOf(r.value) == username
      ensures r.Some? ==> RealmKey(realm, username) in realms && r.value == realms[RealmKey(realm, username)]
      ensures r.None? && RealmKey(realm, username) in realms ==>
        username.Some? && PasswordOf(realms[RealmKey(realm, username)]).None?
    {
      var key := RealmKey(realm, username);
      if key !in realms {
        return None;
      }
      if username.Some? && PasswordOf(realms[key]).None? {
        return None;
      }
      return Some(realms[key]);
    }

    method GetUrl(url: Url, username: Option<string>) returns (r: Option<Authentication>)
      requires Valid()
      ensures r == AtUrl(trie.contents, url, username)
      ensures username.None? ==> IsShortestPrefix(trie.contents, Components(url), r)
      ensures r.Some? ==> IsShortestPrefix(trie.contents, Components(url), r)
      ensures r.Some? && username.Some? ==> UserOf(r.value) == username && PasswordOf(r.value).Some?
      ensures forall a :: r.None? && IsShortestPrefix(trie.contents, Components(url), Some(a)) ==>
        username.Some? && (UserOf(a) != username || PasswordOf(a).None?)
    {
      var found := trie.Get(url);
      forall a | IsShortestPrefix(trie.contents, Components(url), Some(a)) ensures found == Some(a) {
        ShortestPrefixIsUnique(trie.contents, Components(url), found, Some(a));
      }
      ShortestIsShortest(trie.contents, Components(url), 1);
      ShortestPrefixIsUnique(trie.contents, Components(url), found, Shortest(trie.contents, Components(url), 1));
      if found.Some? && (username.None? || username == UserOf(found.value)) {
        if username.Some? && PasswordOf(found.value).None? {
          return None;
        }
        return found;
      }
      return None;
    }

    /** Returns the replaced credentials, if any. */
    method InsertRealm(key: RealmKey, a: Authentication) returns (replaced: Option<Authentication>)
      requires Valid()
      modifies this
      ensures Valid() && realms == WithRealm(old(realms), key, a)
      ensures replaced.Some? ==> key in old(realms) && replaced.value == old(realms)[key]
      ensures replaced.None? ==> key !in old(realms) || realms == old(realms)
      ensures IsAuthenticated(a) ==> realms == old(realms)[key := a]
      ensures !IsAuthenticated(a) && UserOf(a).Some? ==>
        realms == if key in old(realms) && PasswordOf(old(realms)[key]).Some? then old(realms)
                  else old(realms)[key := a]
      ensures !IsAuthenticated(a) && UserOf(a).None? ==> realms == old(realms)
    {
      EmptyIff(a);
      if IsEmpty(a) {
        return None;
      }
      var existing := if key in realms then Some(realms[key]) else None;
      if IsAuthenticated(a) || existing.None? || PasswordOf(existing.value).None? {
        realms := realms[key := a];
        return existing;
      }
      return None;
    }

    method Insert(url: Url, a: Authentication)
      requires Valid()
      modifies this, trie
      ensures Valid()
      ensures IsEmpty(a) ==> realms == old(realms) && trie.contents == old(trie.contents)
      ensures !IsEmpty(a) ==>
        realms == WithRealm(WithUser(old(realms), RealmOf(url), a), RealmKey(RealmOf(url), None), a)
      ensures !IsEmpty(a) ==> trie.contents == old(trie.contents)[Components(url) := a]
      ensures IsAuthenticated(a) ==> HasStored(realms, RealmOf(url), a)
      ensures forall key: RealmKey :: key.realm != RealmOf(url) || (key.username.Some? && key.username != UserOf(a)) ==>
        (key in realms <==> key in old(realms)) && (key in realms ==> realms[key] == old(realms)[key])
    {
      EmptyIff(a);
      if IsEmpty(a) {
        return;
      }
      if UserOf(a).Some? {
        var _ := InsertRealm(RealmKey(RealmOf(url), UserOf(a)), a);
      }
      var _ := InsertRealm(RealmKey(RealmOf(url), None), a);
      trie.Insert(url, a);
    }
  }

  // ---------------------------------------------------------------------------------------------
  // When an entry is found again

  /** The lookup stops at the first prefix with an entry, so it can be cut anywhere. */
  lemma {:induction false} ShortestSplits(urls: UrlMap, key: Key, n: nat, k: nat)
    requires 1 <= k <= n <= |key|
    ensures var shorter := Shortest(urls, key[..n - 1], k);
      Shortest(urls, key, k) == if shorter.Some? then shorter else Shortest(urls, key, n)
    decreases n - k
  {
    if k < n {
      assert key[..n - 1][..k] == key[..k];
      if key[..k] !in urls {
        ShortestSplits(urls, key, n, k + 1);
      }
    }
  }

  lemma {:induction false} ShortestIgnoresLonger(urls: UrlMap, key: Key, long: Key, a: Authentication, k: nat)
    requires |key| < |long|
    ensures Shortest(urls[long := a], key, k) == Shortest(urls, key, k)
    decreases |key| + 1 - k
  {
    if k <= |key| {
      assert key[..k] != long;
      ShortestIgnoresLonger(urls, key, long, a, k + 1);
    }
  }

  /** What hides an entry for the URL: the shortest entry above it. */
  function Above(urls: UrlMap, url: Url): Option<Authentication> {
    Shortest(urls, Components(url)[..|Components(url)| - 1], 1)
  }

  /** An insertion changes what is found for exactly the URLs at or below it, and only if no entry is above it. */
  lemma {:induction false} WhatInsertionChanges(urls: UrlMap, url: Url, a: Authentication, other: Url)
    ensures AtUrl(urls[Components(url) := a], other, None) ==
      if Components(url) <= Components(other) && Above(urls, url).None? then Some(a) else AtUrl(urls, other, None)
  {
    var key, long := Components(other), Components(url);
    var n := |long|;
    if long <= key {
      assert key[..n] == long && key[..n - 1] == long[..n - 1];
      ShortestSplits(urls[long := a], key, n, 1);
      ShortestSplits(urls, key, n, 1);
      ShortestIgnoresLonger(urls, long[..n - 1], long, a, 1);
    } else {
      ShortestIgnoresOthers(urls, key, long, a, 1);
    }
  }

  lemma {:induction false} ShortestIgnoresOthers(urls: UrlMap, key: Key, long: Key, a: Authentication, k: nat)
    requires !(long <= key)
    ensures Shortest(urls[long := a], key, k) == Shortest(urls, key, k)
    decreases |key| + 1 - k
  {
    if k <= |key| {
      assert key[..k] <= key;
      ShortestIgnoresOthers(urls, key, long, a, k + 1);
    }
  }

  /**
   * What was just inserted for a URL is found for it and for every URL below exactly if there is no
   * entry above it, or the shortest one holds the same credentials.
   */
  lemma {:induction false} InsertedIsFound(urls: UrlMap, url: Url, below: Url, a: Authentication)
    requires Components(url) <= Components(below)
    ensures AtUrl(urls[Components(url) := a], below, None) == Some(a) <==>
      Above(urls, url).None? || Above(urls, url) == Some(a)
  {
    var key, long := Components(below), Components(url);
    var n := |long|;
    assert key[..n] == long && key[..n - 1] == long[..n - 1];
    ShortestSplits(urls[long := a], key, n, 1);
    ShortestIgnoresLonger(urls, long[..n - 1], long, a, 1);
  }

  /** A password stored for a host hides one that is stored later for a path on it. */
  lemma {:induction false} EntryIsHidden()
    ensures var host, path := Url("https", Some("h"), None, []), Url("https", Some("h"), None, ["p"]);
      var one, two := Plain(Basic(Some("u"), Some("1"))), Plain(Basic(Some("u"), Some("2")));
      AtUrl(map[Components(host) := one, Components(path) := two], path, None) == Some(one) != Some(two)
  {
    var host, path := Url("https", Some("h"), None, []), Url("https", Some("h"), None, ["p"]);
    assert Components(path)[..1] == Components(host);
    assert "1"[0] != "2"[0];
  }
}
