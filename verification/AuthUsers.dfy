/**
 * Usernames, in every run: an entry of the realm map is filed under the username it holds and
 * keeps its password, and a request that comes with a username is never sent with credentials of
 * another user.
 */
module AuthUsers {
  import opened Wrappers
  import opened Realm
  import opened CredentialsCache
  import opened AuthProtocol
  import opened AuthRuns

  /** The credentials are those of the user, or a token or signer of a platform. */
  predicate Fits(username: Option<string>, a: Authentication) {
    username.Some? ==> UserOf(a) == username || IsPlatform(a)
  }

  predicate FoundFits(username: Option<string>, found: Found) {
    found.Some? ==> Fits(username, found.value)
  }

  // ---------------------------------------------------------------------------------------------
  // Shared state

  ghost predicate SharedFits(s: Shared) {
    && AreFiled(s.realms)
    && (forall key :: key in s.fetches && s.fetches[key].Filled? ==> FoundFits(key.username, s.fetches[key].result))
    && (s.token.Initialized? && s.token.token.Some? ==> IsPlatform(s.token.token.value))
  }

  // ---------------------------------------------------------------------------------------------
  // Tasks

  predicate IsPublishing(pc: Pc) {
    pc.Publish? || pc.TokenPublish? || pc.TokenRelease? || pc.Fetched?
  }

  /** What is published for a key fits the username in the key. */
  predicate PublishesFitting(t: Task) {
    IsPublishing(t.pc) ==> FoundFits(UsernameFor(t), t.pc.found)
  }

  /** The username that a request without password came with. */
  function AskedFor(c: Config, t: Task): Option<string> {
    if IsUserRequest(c, t) then UserOf(t.job.header.auth) else None
  }

  predicate HeaderFits(c: Config, t: Task, h: Header) {
    AskedFor(c, t).Some? ==> h.Carries? && Fits(AskedFor(c, t), h.auth)
  }

  ghost predicate SendsFit(c: Config, t: Task) {
    && HeaderFits(c, t, t.header)
    && (forall i :: 0 <= i < |t.sends| ==> HeaderFits(c, t, t.sends[i].header))
    && (IsUserRequest(c, t) && !t.pc.Begin? ==>
         t.credentials == Some(t.job.header.auth) || t.pc.Complete? || IsInserting(t.pc) || t.pc.Ended?)
    && (IsLookup(t.pc) || t.pc.Attempt? ==> !IsUserRequest(c, t))
    && (IsUserLookup(t.pc) ==> IsUserRequest(c, t))
  }

  ghost predicate TaskFits(c: Config, t: Task) {
    PublishesFitting(t) && SendsFit(c, t)
  }

  // ---------------------------------------------------------------------------------------------
  // Steps

  /** Lookups for a username yield credentials of that user, with a password. */
  lemma {:induction false} LookupsFit(s: Shared, realm: Realm, url: Url, username: Option<string>)
    requires SharedFits(s) && username.Some?
    ensures var found := InRealm(s.realms, realm, username);
      found.Some? ==> UserOf(found.value) == username && PasswordOf(found.value).Some?
    ensures var found := AtUrl(s.urls, url, username);
      found.Some? ==> UserOf(found.value) == username && PasswordOf(found.value).Some?
  {
    var found := Shortest(s.urls, UrlTrie.Components(url), 1);
    assert AtUrl(s.urls, url, username) == IfUsable(found, username);
  }

  lemma {:induction false} FetchingFits(c: Config, s: Shared, t: Task, o: Outcome)
    requires ValidConfig(c) && Enabled(c, s, t) && Allowed(t, o) && SharedFits(s) && TaskFits(c, t) && IsFetching(t.pc)
    ensures TaskFits(c, AfterFetching(c, s, t, o))
  {
    FetchingTask(c, s, t, o);
    var t' := AfterFetching(c, s, t, o);
    assert AskedFor(c, t') == AskedFor(c, t) && UsernameFor(t') == UsernameFor(t);
    assert SendsFit(c, t');
  }

  lemma {:induction false} CachedFits(c: Config, t: Task, found: Found, miss: Pc)
    requires TaskFits(c, t) && IsUserLookup(t.pc) && (miss.UserRoot? || miss.UserUrl? || miss.Register?)
    requires AskedFor(c, t).Some? ==> FoundFits(AskedFor(c, t), found)
    ensures TaskFits(c, IfCached(t, found, miss))
  {
    var t' := IfCached(t, found, miss);
    assert AskedFor(c, t') == AskedFor(c, t);
  }

  lemma {:induction false} UserRealmFits(c: Config, t: Task, found: Found)
    requires TaskFits(c, t) && t.pc.UserRealm? && (AskedFor(c, t).Some? ==> FoundFits(AskedFor(c, t), found))
    ensures found.Some? ==> TaskFits(c, Authenticate(t, found.value, Complete(found)))
    ensures TaskFits(c, t.(pc := Complete(t.credentials)))
  {
  }

  lemma {:induction false} UserLookupFits(c: Config, s: Shared, t: Task)
    requires SharedFits(s) && TaskFits(c, t) && IsUserLookup(t.pc)
    ensures TaskFits(c, AfterUserLookup(c, s, t))
  {
    var url, user := t.job.url, UsernameFor(t);
    var index := c.indexFor(url);
    assert user == AskedFor(c, t);
    if user.Some? {
      LookupsFit(s, RealmOf(url), url, user);
      if index.Some? {
        LookupsFit(s, RealmOf(url), index.value.url, user);
        LookupsFit(s, RealmOf(url), index.value.root, user);
      }
    }
    UserLookupCases(c, s, t, user, index);
  }

  lemma {:induction false} UserLookupCases(c: Config, s: Shared, t: Task, user: Option<string>, index: Option<Index>)
    requires TaskFits(c, t) && IsUserLookup(t.pc) && user == UsernameFor(t) == AskedFor(c, t)
    requires index == c.indexFor(t.job.url)
    requires user.Some? ==>
      && FoundFits(user, InRealm(s.realms, RealmOf(t.job.url), user)) && FoundFits(user, AtUrl(s.urls, t.job.url, user))
      && (index.Some? ==>
           && FoundFits(user, AtUrl(s.urls, index.value.url, user))
           && FoundFits(user, AtUrl(s.urls, index.value.root, user)))
    ensures TaskFits(c, AfterUserLookup(c, s, t))
  {
    match t.pc
    case UserRealm => UserRealmFits(c, t, InRealm(s.realms, RealmOf(t.job.url), user));
    case UserUrl => CachedFits(c, t, AtUrl(s.urls, t.job.url, user), Register);
    case UserRoot => CachedFits(c, t, if index.Some? then AtUrl(s.urls, index.value.root, user) else None, UserUrl);
    case UserFirst =>
      if index.Some? {
        CachedFits(c, t, AtUrl(s.urls, index.value.url, user), UserRoot);
      } else {
        CachedFits(c, t, InRealm(s.realms, RealmOf(t.job.url), user), UserUrl);
      }
  }

  /** A request without a username may be sent with anything. */
  lemma {:induction false} LookupFits(c: Config, s: Shared, t: Task)
    requires TaskFits(c, t) && IsLookup(t.pc)
    ensures TaskFits(c, AfterLookup(c, s, t))
  {
    LookupTask(c, s, t);
    assert !IsUserRequest(c, AfterLookup(c, s, t));
  }

  lemma {:induction false} SendFits(c: Config, t: Task, status: Option<nat>, pc: Pc)
    requires TaskFits(c, t) && (t.pc.Complete? || t.pc.Attempt?)
    requires IsInserting(pc) || pc.Ended? || (pc.IndexLookup? && t.pc.Attempt?)
    ensures TaskFits(c, Sent(t, status, pc)) && TaskFits(c, t.(pc := pc))
  {
    assert AskedFor(c, Sent(t, status, pc)) == AskedFor(c, t) == AskedFor(c, t.(pc := pc));
  }

  lemma {:induction false} FetchedFits(c: Config, t: Task, found: Found)
    requires TaskFits(c, t) && t.pc == Fetched(found)
    ensures TaskFits(c, AfterFetch(c, t, found))
  {
    var t' := AfterFetch(c, t, found);
    assert AskedFor(c, t') == AskedFor(c, t);
    assert IsUserRequest(c, t) ==> UsernameFor(t) == AskedFor(c, t);
  }

  lemma {:induction false} OtherFits(c: Config, s: Shared, t: Task, o: Outcome)
    requires Enabled(c, s, t) && TaskFits(c, t) && (t.pc.Begin? || IsInserting(t.pc))
    ensures TaskFits(c, NextTask(c, s, t, o))
  {
    var t' := NextTask(c, s, t, o);
    assert t'.job == t.job && t'.header == t.header && t'.sends == t.sends;
    assert AskedFor(c, t') == AskedFor(c, t);
  }

  lemma {:induction false} TaskStep(c: Config, s: Shared, t: Task, o: Outcome)
    requires ValidConfig(c) && Enabled(c, s, t) && Allowed(t, o) && SharedFits(s) && TaskFits(c, t)
    ensures TaskFits(c, NextTask(c, s, t, o))
  {
    if IsLookup(t.pc) {
      LookupFits(c, s, t);
    } else if IsUserLookup(t.pc) {
      UserLookupFits(c, s, t);
    } else if IsFetching(t.pc) {
      FetchingFits(c, s, t, o);
    } else {
      match t.pc
      case Attempt =>
        SendFits(c, t, o.status, IndexLookup);
        SendFits(c, t, o.status, Ended(o.status));
      case Complete(insert) =>
        SendFits(c, t, o.status, Ended(None));
        SendFits(c, t, o.status, Ended(o.status));
        if insert.Some? {
          SendFits(c, t, o.status, InsertUser(insert.value));
        }
      case Fetched(found) => FetchedFits(c, t, found);
      case _ => OtherFits(c, s, t, o);
    }
  }

  lemma {:induction false} SharedStep(c: Config, id: nat, s: Shared, t: Task, o: Outcome)
    requires Enabled(c, s, t) && Allowed(t, o) && SharedFits(s) && PublishesFitting(t)
    ensures SharedFits(NextShared(c, id, s, t, o))
  {
    var s' := NextShared(c, id, s, t, o);
    if IsInserting(t.pc) {
      WritesKeepFiled(s.realms, RealmOf(t.job.url), t.pc.auth);
      assert s'.fetches == s.fetches && s'.token == s.token;
    } else {
      assert s'.realms == s.realms;
      FetchesFit(c, id, s, t, o);
    }
  }

  lemma {:induction false} FetchesFit(c: Config, id: nat, s: Shared, t: Task, o: Outcome)
    requires Enabled(c, s, t) && Allowed(t, o) && SharedFits(s) && PublishesFitting(t) && !IsInserting(t.pc)
    ensures var s' := NextShared(c, id, s, t, o);
      && (forall key :: key in s'.fetches && s'.fetches[key].Filled? ==>
           FoundFits(key.username, s'.fetches[key].result))
      && (s'.token.Initialized? && s'.token.token.Some? ==> IsPlatform(s'.token.token.value))
  {
  }

  // ---------------------------------------------------------------------------------------------
  // Every run

  lemma {:induction false} UsersInRun(c: Config, run: seq<State>, k: nat)
    requires IsRun(c, run) && k < |run|
    ensures SharedFits(run[k].shared) && forall i: nat :: i < |run[k].tasks| ==> TaskFits(c, run[k].tasks[i])
  {
    var shared: SharedInvariant := s => SharedFits(s);
    var local: LocalInvariant := (s: Shared, id: nat, t: Task) => TaskFits(c, t);
    forall id: nat, s, t, o | Enabled(c, s, t) && Allowed(t, o) && shared(s) && local(s, id, t)
      ensures shared(NextShared(c, id, s, t, o)) && local(NextShared(c, id, s, t, o), id, NextTask(c, s, t, o))
    {
      TaskStep(c, s, t, o);
      SharedStep(c, id, s, t, o);
    }
    assert HoldsIn(run[0], shared, local);
    HoldsInRun(c, run, k, shared, local);
    forall i: nat | i < |run[k].tasks| ensures TaskFits(c, run[k].tasks[i]) {
      assert local(run[k].shared, i, run[k].tasks[i]);
    }
  }

  /** Entries of the realm map are filed under the username that they hold. */
  lemma {:induction false} EntriesAreFiled(c: Config, run: seq<State>, k: nat, key: RealmKey)
    requires IsRun(c, run) && k < |run| && key in run[k].shared.realms && key.username.Some?
    ensures UserOf(run[k].shared.realms[key]) == key.username
  {
    UsersInRun(c, run, k);
  }

  /** A request that came with only a username is sent for that user, or with a platform's token. */
  lemma {:induction false} NoOtherUsersPassword(c: Config, run: seq<State>, k: nat, i: nat, n: nat)
    requires IsRun(c, run) && k < |run| && i < |run[k].tasks| && n < |run[k].tasks[i].sends|
    requires IsUserRequest(c, run[k].tasks[i]) && UserOf(run[k].tasks[i].job.header.auth).Some?
    ensures var header := run[k].tasks[i].sends[n].header;
      header.Carries? && (UserOf(header.auth) == UserOf(run[k].tasks[i].job.header.auth) || IsPlatform(header.auth))
  {
    UsersInRun(c, run, k);
    assert TaskFits(c, run[k].tasks[i]);
    assert HeaderFits(c, run[k].tasks[i], run[k].tasks[i].sends[n].header);
  }

  lemma {:induction false} StepKeepsPasswords(c: Config, id: nat, s: Shared, t: Task, o: Outcome)
    requires Enabled(c, s, t)
    ensures KeepsPasswords(s.realms, NextShared(c, id, s, t, o).realms)
  {
    if IsInserting(t.pc) {
      WritesKeepPasswords(s.realms, RealmOf(t.job.url), t.pc.auth);
    }
  }

  /** An entry for a named user that has a password has one for ever. */
  lemma {:induction false} PasswordsStay(c: Config, run: seq<State>, k: nat, m: nat)
    requires IsRun(c, run) && k <= m < |run|
    ensures KeepsPasswords(run[k].shared.realms, run[m].shared.realms)
  {
    var before := run[k].shared.realms;
    forall x: nat | k <= x < m && KeepsPasswords(before, run[x].shared.realms)
      ensures KeepsPasswords(before, run[x + 1].shared.realms)
    {
      PasswordsNext(c, run, x);
    }
    Onwards(run, k, m, (s: State) => KeepsPasswords(before, s.shared.realms));
  }

  lemma {:induction false} PasswordsNext(c: Config, run: seq<State>, x: nat)
    requires IsRun(c, run) && x + 1 < |run|
    ensures KeepsPasswords(run[x].shared.realms, run[x + 1].shared.realms)
  {
    var id, o := StepOf(c, run, x);
    StepKeepsPasswords(c, id, run[x].shared, run[x].tasks[id], o);
  }
}
