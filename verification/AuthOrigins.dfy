/**
 * Where credentials come from and where they go, in every run: whatever is in the cache was stored
 * explicitly or was accepted by a server of the realm it is filed under, and a request only ever
 * carries its own credentials, the result of its own search, or credentials known in its realm.
 */
module AuthOrigins {
  import opened Wrappers
  import opened Realm
  import opened UrlTrie
  import opened CredentialsCache
  import opened AuthProtocol
  import opened AuthRuns
  import AuthFetches

  /** The credentials were stored for, or accepted in, the realm. */
  predicate IsKnown(s: Shared, realm: Realm, a: Authentication) {
    Origin(realm, a) in s.stored || Origin(realm, a) in s.accepted
  }

  predicate HasHost(url: Url) {
    url.host.Some? && WellFormed(RealmOf(url))
  }

  /** The entry of the trie was made for the URL of a task, and its realm knows the credentials. */
  ghost predicate HasOrigin(jobs: set<Url>, s: Shared, key: Key, a: Authentication) {
    exists url :: url in jobs && Components(url) == key && IsKnown(s, RealmOf(url), a)
  }

  ghost predicate RealmsHaveOrigins(s: Shared) {
    forall key :: key in s.realms ==> IsKnown(s, key.realm, s.realms[key])
  }

  ghost predicate UrlsHaveOrigins(jobs: set<Url>, s: Shared) {
    forall key :: key in s.urls ==> HasOrigin(jobs, s, key, s.urls[key])
  }

  ghost predicate AllHaveHosts(jobs: set<Url>) {
    forall url :: url in jobs ==> HasHost(url)
  }

  /** An index lies in the realm of every URL that it covers. */
  ghost predicate IndexesAreLocal(c: Config) {
    forall url :: c.indexFor(url).Some? ==>
      RealmOf(c.indexFor(url).value.url) == RealmOf(url) == RealmOf(c.indexFor(url).value.root)
  }

  // ---------------------------------------------------------------------------------------------
  // The cache only holds what is known

  /** What is about to be inserted is what the request carries, and then what was accepted. */
  predicate InsertsWhatItSent(s: Shared, t: Task) {
    && (t.pc.Begin? && t.job.Handle? ==> t.header == t.job.header)
    && (t.pc.Complete? && t.pc.insert.Some? ==> t.header == Carries(t.pc.insert.value))
    && (IsInserting(t.pc) ==> IsKnown(s, RealmOf(t.job.url), t.pc.auth))
  }

  /** Until it finds something better, a request without password carries what it came with. */
  predicate KeepsItsOwn(c: Config, t: Task) {
    && (IsUserLookup(t.pc) ==> IsUserRequest(c, t))
    && (IsUserRequest(c, t) && (IsUserLookup(t.pc) || IsFetching(t.pc) || t.pc.Fetched?) ==>
         t.header == t.job.header && t.credentials == Some(t.job.header.auth))
    && (IsLookup(t.pc) || t.pc.Attempt? ==> !IsUserRequest(c, t))
  }

  lemma {:induction false} OwnStep(c: Config, s: Shared, t: Task, o: Outcome)
    requires Enabled(c, s, t) && KeepsItsOwn(c, t) && (t.pc.Begin? && t.job.Handle? ==> t.header == t.job.header)
    ensures KeepsItsOwn(c, NextTask(c, s, t, o))
  {
    if IsLookup(t.pc) {
      LookupTask(c, s, t);
    } else if IsUserLookup(t.pc) {
      UserLookupTask(c, s, t);
    } else if IsFetching(t.pc) {
      FetchingTask(c, s, t, o);
    } else {
      OwnOtherStep(c, s, t, o);
    }
  }

  lemma {:induction false} OwnOtherStep(c: Config, s: Shared, t: Task, o: Outcome)
    requires Enabled(c, s, t) && KeepsItsOwn(c, t) && (t.pc.Begin? && t.job.Handle? ==> t.header == t.job.header)
    requires !IsLookup(t.pc) && !IsUserLookup(t.pc) && !IsFetching(t.pc)
    ensures KeepsItsOwn(c, NextTask(c, s, t, o))
  {
  }

  /** What carries over to `Complete` carries what is inserted. */
  lemma {:induction false} CarriesWhatIsInserted(c: Config, s: Shared, t: Task, o: Outcome)
    requires Enabled(c, s, t) && KeepsItsOwn(c, t) && InsertsWhatItSent(s, t)
    ensures var t' := NextTask(c, s, t, o); t'.pc.Complete? && t'.pc.insert.Some? ==>
      t'.header == Carries(t'.pc.insert.value)
  {
    if IsLookup(t.pc) {
      LookupTask(c, s, t);
    } else if IsUserLookup(t.pc) {
      UserCarries(c, s, t);
    }
  }

  lemma {:induction false} UserCarries(c: Config, s: Shared, t: Task)
    requires IsUserLookup(t.pc) && t.job.Handle? && t.job.header.Carries? && t.header == t.job.header
    requires t.credentials == Some(t.job.header.auth)
    ensures var t' := AfterUserLookup(c, s, t); t'.pc.Complete? && t'.pc.insert.Some? ==>
      t'.header == Carries(t'.pc.insert.value)
  {
    var url, user := t.job.url, UsernameFor(t);
    var index := c.indexFor(url);
    match t.pc
    case UserRealm =>
    case UserFirst =>
      if index.Some? {
        CachedIsNotInserted(t, AtUrl(s.urls, index.value.url, user), UserRoot);
      } else {
        CachedIsNotInserted(t, InRealm(s.realms, RealmOf(url), user), UserUrl);
      }
    case UserRoot =>
      CachedIsNotInserted(t, if index.Some? then AtUrl(s.urls, index.value.root, user) else None, UserUrl);
    case UserUrl => CachedIsNotInserted(t, AtUrl(s.urls, url, user), Register);
  }

  lemma {:induction false} CachedIsNotInserted(t: Task, found: Found, miss: Pc)
    requires !miss.Complete?
    ensures IfCached(t, found, miss).pc.Complete? ==> IfCached(t, found, miss).pc.insert.None?
  {
  }

  /** Steps only add to what is known. */
  predicate KnowsMore(s: Shared, s': Shared) {
    s.stored <= s'.stored && s.accepted <= s'.accepted
  }

  lemma {:induction false} KnownGrows(c: Config, id: nat, s: Shared, t: Task, o: Outcome)
    requires Enabled(c, s, t)
    ensures KnowsMore(s, NextShared(c, id, s, t, o))
  {
  }

  lemma {:induction false} InsertStep(c: Config, id: nat, s: Shared, t: Task, o: Outcome)
    requires Enabled(c, s, t) && KeepsItsOwn(c, t) && InsertsWhatItSent(s, t)
    ensures InsertsWhatItSent(NextShared(c, id, s, t, o), NextTask(c, s, t, o))
  {
    var s', t' := NextShared(c, id, s, t, o), NextTask(c, s, t, o);
    KnownGrows(c, id, s, t, o);
    JobIsFixed(c, s, t, o);
    CarriesWhatIsInserted(c, s, t, o);
    NotBeginAgain(c, s, t, o);
    if IsInserting(t'.pc) && !IsInserting(t.pc) {
      EntersInsertion(c, s, t, o);
      if t.pc.Complete? {
        CompleteAccepts(c, s, t, t.pc.insert, o);
      }
    }
  }

  lemma {:induction false} NotBeginAgain(c: Config, s: Shared, t: Task, o: Outcome)
    requires Enabled(c, s, t)
    ensures !NextTask(c, s, t, o).pc.Begin?
    ensures IsInserting(t.pc) && IsInserting(NextTask(c, s, t, o).pc) ==> NextTask(c, s, t, o).pc.auth == t.pc.auth
  {
    if IsLookup(t.pc) {
      LookupTask(c, s, t);
    } else if IsUserLookup(t.pc) {
      UserLookupTask(c, s, t);
    } else if IsFetching(t.pc) {
      FetchingTask(c, s, t, o);
    }
  }

  lemma {:induction false} EntersInsertion(c: Config, s: Shared, t: Task, o: Outcome)
    requires Enabled(c, s, t) && IsInserting(NextTask(c, s, t, o).pc) && !IsInserting(t.pc)
    ensures t.pc.Complete? || (t.pc.Begin? && t.job.Store? && NextTask(c, s, t, o).pc.auth == t.job.auth)
  {
    if IsLookup(t.pc) {
      LookupTask(c, s, t);
    } else if IsUserLookup(t.pc) {
      UserLookupTask(c, s, t);
    } else if IsFetching(t.pc) {
      FetchingTask(c, s, t, o);
    }
  }

  lemma {:induction false} CompleteAccepts(c: Config, s: Shared, t: Task, insert: Found, o: Outcome)
    requires t.pc == Complete(insert) && (insert.Some? ==> t.header == Carries(insert.value))
    requires IsInserting(AfterComplete(c, t, insert, o.status).pc)
    ensures var t' := AfterComplete(c, t, insert, o.status); IsKnown(Accept(s, t, t'), RealmOf(t.job.url), t'.pc.auth)
  {
  }

  lemma {:induction false} OriginsGrow(jobs: set<Url>, s: Shared, s': Shared)
    requires KnowsMore(s, s') && s'.realms == s.realms && s'.urls == s.urls
    requires RealmsHaveOrigins(s) && UrlsHaveOrigins(jobs, s)
    ensures RealmsHaveOrigins(s') && UrlsHaveOrigins(jobs, s')
  {
    forall key | key in s'.urls ensures HasOrigin(jobs, s', key, s'.urls[key]) {
      var url :| url in jobs && Components(url) == key && IsKnown(s, RealmOf(url), s.urls[key]);
      assert IsKnown(s', RealmOf(url), s.urls[key]);
    }
  }

  /** Only insertions change the cache. */
  lemma {:induction false} CacheUnchanged(c: Config, id: nat, s: Shared, t: Task, o: Outcome)
    requires Enabled(c, s, t) && !IsInserting(t.pc)
    ensures NextShared(c, id, s, t, o).realms == s.realms && NextShared(c, id, s, t, o).urls == s.urls
  {
  }

  lemma {:induction false} CacheStep(c: Config, jobs: set<Url>, id: nat, s: Shared, t: Task, o: Outcome)
    requires Enabled(c, s, t) && InsertsWhatItSent(s, t) && t.job.url in jobs && RealmsHaveOrigins(s)
    requires UrlsHaveOrigins(jobs, s)
    ensures RealmsHaveOrigins(NextShared(c, id, s, t, o)) && UrlsHaveOrigins(jobs, NextShared(c, id, s, t, o))
  {
    var s' := NextShared(c, id, s, t, o);
    if !IsInserting(t.pc) {
      KnownGrows(c, id, s, t, o);
      CacheUnchanged(c, id, s, t, o);
      OriginsGrow(jobs, s, s');
    } else if t.pc.InsertUrl? {
      InsertUrlStep(jobs, s, t.job.url, t.pc.auth);
    } else if t.pc.InsertUser? {
      InsertRealmStep(jobs, s, RealmKey(RealmOf(t.job.url), UserOf(t.pc.auth)), t.pc.auth);
    } else {
      InsertRealmStep(jobs, s, RealmKey(RealmOf(t.job.url), None), t.pc.auth);
    }
  }

  lemma {:induction false} InsertRealmStep(jobs: set<Url>, s: Shared, key: RealmKey, a: Authentication)
    requires IsKnown(s, key.realm, a) && RealmsHaveOrigins(s) && UrlsHaveOrigins(jobs, s)
    ensures var s' := s.(realms := WithRealm(s.realms, key, a)); RealmsHaveOrigins(s') && UrlsHaveOrigins(jobs, s')
  {
    var s' := s.(realms := WithRealm(s.realms, key, a));
    OriginsGrow(jobs, s, s'.(realms := s.realms));
  }

  lemma {:induction false} InsertUrlStep(jobs: set<Url>, s: Shared, url: Url, a: Authentication)
    requires url in jobs && IsKnown(s, RealmOf(url), a) && RealmsHaveOrigins(s) && UrlsHaveOrigins(jobs, s)
    ensures var s' := s.(urls := s.urls[Components(url) := a]); RealmsHaveOrigins(s') && UrlsHaveOrigins(jobs, s')
  {
    var s' := s.(urls := s.urls[Components(url) := a]);
    assert IsKnown(s', RealmOf(url), a);
    OriginsGrow(jobs, s, s'.(urls := s.urls));
    forall key | key in s'.urls ensures HasOrigin(jobs, s', key, s'.urls[key]) {
      if key != Components(url) {
        var other :| other in jobs && Components(other) == key && IsKnown(s, RealmOf(other), s.urls[key]);
        assert IsKnown(s', RealmOf(other), s.urls[key]);
      }
    }
  }

  // ---------------------------------------------------------------------------------------------
  // Requests only carry what belongs to their realm

  /** The header carries the request's own credentials, the result of its search, or known ones. */
  predicate CameFrom(s: Shared, t: Task, h: Header) {
    h.Carries? ==>
      || (t.job.Handle? && h == t.job.header)
      || t.answer == Some(Some(h.auth))
      || IsKnown(s, RealmOf(t.job.url), h.auth)
  }

  ghost predicate CarriesLocally(s: Shared, t: Task) {
    && CameFrom(s, t, t.header)
    && (t.credentials.Some? ==> CameFrom(s, t, Carries(t.credentials.value)))
    && (t.pc.Fetched? ==> t.answer == Some(t.pc.found))
    && (IsFetching(t.pc) ==> t.answer.None?)
    && (forall i :: 0 <= i < |t.sends| ==> CameFrom(s, t, t.sends[i].header))
  }

  /** What the trie yields for a URL is known in its realm. */
  lemma {:induction false} UrlLookupIsKnown(jobs: set<Url>, s: Shared, url: Url, username: Option<string>)
    requires UrlsHaveOrigins(jobs, s) && AllHaveHosts(jobs) && HasHost(url)
    ensures var found := AtUrl(s.urls, url, username); found.Some? ==> IsKnown(s, RealmOf(url), found.value)
  {
    var found := AtUrl(s.urls, url, username);
    if found.Some? {
      AtUrlIsPrefix(s.urls, url, username);
      var key :| key in s.urls && key <= Components(url) && s.urls[key] == found.value;
      assert HasOrigin(jobs, s, key, s.urls[key]);
      var other :| other in jobs && Components(other) == key && IsKnown(s, RealmOf(other), s.urls[key]);
      LookupStaysInRealm(url, other);
    }
  }

  lemma {:induction false} IndexLookupIsKnown(jobs: set<Url>, s: Shared, url: Url, other: Url, username: Option<string>)
    requires UrlsHaveOrigins(jobs, s) && AllHaveHosts(jobs) && HasHost(url) && RealmOf(other) == RealmOf(url)
    ensures var found := AtUrl(s.urls, other, username); found.Some? ==> IsKnown(s, RealmOf(url), found.value)
  {
    assert HasHost(other) by {
      assert RealmOf(other).host == other.host && RealmOf(url).host == url.host;
    }
    UrlLookupIsKnown(jobs, s, other, username);
  }

  lemma {:induction false} RealmLookupIsKnown(s: Shared, realm: Realm, username: Option<string>)
    requires RealmsHaveOrigins(s)
    ensures var found := InRealm(s.realms, realm, username); found.Some? ==> IsKnown(s, realm, found.value)
  {
  }

  /** A task goes on with what it had, or with credentials that are known. */
  ghost predicate TakesKnown(s: Shared, t: Task, t': Task) {
    && t'.job == t.job && t'.sends == t.sends && t'.answer == t.answer && !t'.pc.Fetched?
    && (t'.header == t.header || (t'.header.Carries? && CameFrom(s, t, t'.header)))
    && (t'.credentials == t.credentials || (t'.credentials.Some? ==> CameFrom(s, t, Carries(t'.credentials.value))))
  }

  lemma {:induction false} LookupTakesKnown(c: Config, jobs: set<Url>, s: Shared, t: Task)
    requires IsLookup(t.pc) && t.job.url in jobs && AllHaveHosts(jobs) && RealmsHaveOrigins(s)
    requires UrlsHaveOrigins(jobs, s) && IndexesAreLocal(c)
    requires CarriesLocally(s, t)
    ensures TakesKnown(s, t, AfterLookup(c, s, t))
  {
    var url, user := t.job.url, UsernameFor(t);
    if t.pc.UrlLookup? {
      UrlLookupIsKnown(jobs, s, url, None);
      FirstTakesKnown(s, t, AtUrl(s.urls, url, None));
    } else if t.pc.RealmLookup? {
      RealmLookupIsKnown(s, RealmOf(url), user);
      DecidedTakesKnown(s, t, InRealm(s.realms, RealmOf(url), user));
    } else if c.indexFor(url).Some? {
      IndexLookupIsKnown(jobs, s, url, c.indexFor(url).value.url, user);
      DecidedTakesKnown(s, t, AtUrl(s.urls, c.indexFor(url).value.url, user));
    }
  }

  lemma {:induction false} FirstTakesKnown(s: Shared, t: Task, found: Found)
    requires found.Some? ==> CameFrom(s, t, Carries(found.value))
    ensures TakesKnown(s, t, AfterUrlLookup(t, found))
  {
  }

  lemma {:induction false} DecidedTakesKnown(s: Shared, t: Task, found: Found)
    requires found.Some? ==> CameFrom(s, t, Carries(found.value))
    requires t.credentials.Some? ==> CameFrom(s, t, Carries(t.credentials.value))
    ensures TakesKnown(s, t, Decided(t, found))
  {
  }

  lemma {:induction false} CachedTakesKnown(s: Shared, t: Task, found: Found, miss: Pc)
    requires found.Some? ==> IsKnown(s, RealmOf(t.job.url), found.value)
    requires !miss.Fetched?
    ensures TakesKnown(s, t, IfCached(t, found, miss))
  {
  }

  lemma {:induction false} UserLookupTakesKnown(c: Config, jobs: set<Url>, s: Shared, t: Task)
    requires IsUserLookup(t.pc) && t.job.url in jobs && AllHaveHosts(jobs) && RealmsHaveOrigins(s)
    requires UrlsHaveOrigins(jobs, s) && IndexesAreLocal(c)
    ensures TakesKnown(s, t, AfterUserLookup(c, s, t))
  {
    var url, user := t.job.url, UsernameFor(t);
    var index := c.indexFor(url);
    RealmLookupIsKnown(s, RealmOf(url), user);
    match t.pc
    case UserRealm =>
    case UserUrl =>
      UrlLookupIsKnown(jobs, s, url, user);
      CachedTakesKnown(s, t, AtUrl(s.urls, url, user), Register);
    case UserRoot =>
      if index.Some? {
        IndexLookupIsKnown(jobs, s, url, index.value.root, user);
      }
      CachedTakesKnown(s, t, if index.Some? then AtUrl(s.urls, index.value.root, user) else None, UserUrl);
    case UserFirst =>
      if index.Some? {
        IndexLookupIsKnown(jobs, s, url, index.value.url, user);
        CachedTakesKnown(s, t, AtUrl(s.urls, index.value.url, user), UserRoot);
      } else {
        CachedTakesKnown(s, t, InRealm(s.realms, RealmOf(url), user), UserUrl);
      }
  }

  /** Knowing more, with the same answer, keeps everything local. */
  lemma {:induction false} StaysLocal(s: Shared, s': Shared, t: Task)
    requires KnowsMore(s, s') && CarriesLocally(s, t)
    ensures CarriesLocally(s', t)
  {
    forall h | CameFrom(s, t, h) ensures CameFrom(s', t, h) {
    }
  }

  lemma {:induction false} TakingKnownIsLocal(s: Shared, t: Task, t': Task)
    requires CarriesLocally(s, t) && TakesKnown(s, t, t') && (IsFetching(t'.pc) ==> t.answer.None?)
    ensures CarriesLocally(s, t')
  {
    forall h | CameFrom(s, t, h) ensures CameFrom(s, t', h) {
    }
  }

  lemma {:induction false} FetchingIsLocal(c: Config, s: Shared, t: Task, o: Outcome)
    requires Enabled(c, s, t) && IsFetching(t.pc) && CarriesLocally(s, t)
    ensures CarriesLocally(s, AfterFetching(c, s, t, o))
  {
    var t' := AfterFetching(c, s, t, o);
    assert t'.job == t.job && t'.sends == t.sends && t'.header == t.header && t'.credentials == t.credentials;
    forall h | CameFrom(s, t, h) ensures CameFrom(s, t', h) {
    }
  }

  lemma {:induction false} SendIsLocal(s: Shared, t: Task, status: Option<nat>, pc: Pc)
    requires CarriesLocally(s, t) && !pc.Fetched? && !IsFetching(pc)
    ensures CarriesLocally(s, Sent(t, status, pc))
  {
    var t' := Sent(t, status, pc);
    forall h | CameFrom(s, t, h) ensures CameFrom(s, t', h) {
    }
  }

  lemma {:induction false} PcIsLocal(s: Shared, t: Task, pc: Pc)
    requires CarriesLocally(s, t) && !pc.Fetched? && !IsFetching(pc)
    ensures CarriesLocally(s, t.(pc := pc))
  {
    forall h | CameFrom(s, t, h) ensures CameFrom(s, t.(pc := pc), h) {
    }
  }

  lemma {:induction false} StartIsLocal(c: Config, s: Shared, t: Task)
    requires CarriesLocally(s, t) && t.pc.Begin? && (t.job.Handle? ==> t.header == t.job.header)
    ensures CarriesLocally(s, Start(c, t))
  {
    forall h | CameFrom(s, t, h) ensures CameFrom(s, Start(c, t), h) {
    }
  }

  lemma {:induction false} FetchedIsLocal(c: Config, s: Shared, t: Task, found: Found)
    requires CarriesLocally(s, t) && t.pc == Fetched(found)
    ensures CarriesLocally(s, AfterFetch(c, t, found))
  {
    forall h | CameFrom(s, t, h) ensures CameFrom(s, AfterFetch(c, t, found), h) {
    }
  }

  /** Before the fetch there is no answer. */
  predicate HasNoAnswerYet(t: Task) {
    (t.pc.Begin? || t.pc.Attempt? || IsLookup(t.pc) || t.pc.UserFirst? || t.pc.UserRoot? || t.pc.UserUrl?) ==>
      t.answer.None?
  }

  lemma {:induction false} NoAnswerStep(c: Config, s: Shared, t: Task, o: Outcome)
    requires Enabled(c, s, t) && HasNoAnswerYet(t)
    ensures HasNoAnswerYet(NextTask(c, s, t, o))
    ensures IsFetching(NextTask(c, s, t, o).pc) && !IsFetching(t.pc) ==> t.answer.None?
  {
    if IsLookup(t.pc) {
      LookupTask(c, s, t);
    } else if IsUserLookup(t.pc) {
      UserLookupTask(c, s, t);
    } else if IsFetching(t.pc) {
      FetchingTask(c, s, t, o);
    }
  }

  lemma {:induction false} LocalStep(c: Config, jobs: set<Url>, s: Shared, t: Task, o: Outcome)
    requires Enabled(c, s, t) && CarriesLocally(s, t) && HasNoAnswerYet(t) && t.job.url in jobs && AllHaveHosts(jobs)
    requires IndexesAreLocal(c)
    requires RealmsHaveOrigins(s) && UrlsHaveOrigins(jobs, s)
    requires t.pc.Begin? && t.job.Handle? ==> t.header == t.job.header
    ensures CarriesLocally(s, NextTask(c, s, t, o))
  {
    NoAnswerStep(c, s, t, o);
    if IsLookup(t.pc) {
      LookupTakesKnown(c, jobs, s, t);
      TakingKnownIsLocal(s, t, AfterLookup(c, s, t));
    } else if IsUserLookup(t.pc) {
      UserLookupTakesKnown(c, jobs, s, t);
      TakingKnownIsLocal(s, t, AfterUserLookup(c, s, t));
    } else if IsFetching(t.pc) {
      FetchingIsLocal(c, s, t, o);
    } else {
      LocalOtherStep(c, s, t, o);
    }
  }

  lemma {:induction false} LocalOtherStep(c: Config, s: Shared, t: Task, o: Outcome)
    requires Enabled(c, s, t) && CarriesLocally(s, t) && (t.pc.Begin? && t.job.Handle? ==> t.header == t.job.header)
    requires !IsLookup(t.pc) && !IsUserLookup(t.pc) && !IsFetching(t.pc)
    ensures CarriesLocally(s, NextTask(c, s, t, o))
  {
    match t.pc
    case Begin => StartIsLocal(c, s, t);
    case Attempt =>
      PcIsLocal(s, t, IndexLookup);
      SendIsLocal(s, t, o.status, IndexLookup);
      SendIsLocal(s, t, o.status, Ended(o.status));
    case Fetched(found) => FetchedIsLocal(c, s, t, found);
    case Complete(insert) =>
      PcIsLocal(s, t, Ended(None));
      if insert.Some? {
        SendIsLocal(s, t, o.status, InsertUser(insert.value));
      }
      SendIsLocal(s, t, o.status, Ended(o.status));
    case InsertUser(auth) => PcIsLocal(s, t, if IsEmpty(auth) then Ended(t.response) else InsertRealm(auth));
    case InsertRealm(auth) => PcIsLocal(s, t, InsertUrl(auth));
    case InsertUrl(auth) => PcIsLocal(s, t, Ended(t.response));
  }

  // ---------------------------------------------------------------------------------------------
  // Every run

  /** The URLs that any task is about. */
  ghost function JobUrls(s: State): set<Url> {
    set i | 0 <= i < |s.tasks| :: s.tasks[i].job.url
  }

  ghost predicate OriginsOk(jobs: set<Url>, s: Shared) {
    RealmsHaveOrigins(s) && UrlsHaveOrigins(jobs, s)
  }

  ghost predicate InsertsOk(c: Config, jobs: set<Url>, s: Shared, t: Task) {
    t.job.url in jobs && InsertsWhatItSent(s, t) && KeepsItsOwn(c, t)
  }

  lemma {:induction false} OriginStep(c: Config, jobs: set<Url>, id: nat, s: Shared, t: Task, o: Outcome)
    requires Enabled(c, s, t) && OriginsOk(jobs, s) && InsertsOk(c, jobs, s, t)
    ensures OriginsOk(jobs, NextShared(c, id, s, t, o))
    ensures InsertsOk(c, jobs, NextShared(c, id, s, t, o), NextTask(c, s, t, o))
  {
    CacheStep(c, jobs, id, s, t, o);
    InsertStep(c, id, s, t, o);
    OwnStep(c, s, t, o);
    JobIsFixed(c, s, t, o);
  }

  /** Whatever the cache holds was stored for, or accepted in, the realm under which it is found. */
  lemma {:induction false} EveryEntryHasAnOrigin(c: Config, run: seq<State>, k: nat)
    requires IsRun(c, run) && k < |run|
    ensures RealmsHaveOrigins(run[k].shared) && UrlsHaveOrigins(JobUrls(run[0]), run[k].shared)
  {
    var jobs := JobUrls(run[0]);
    var shared: SharedInvariant := s => OriginsOk(jobs, s);
    var local: LocalInvariant := (s: Shared, id: nat, t: Task) => InsertsOk(c, jobs, s, t);
    forall id: nat, s, t, o | Enabled(c, s, t) && Allowed(t, o) && shared(s) && local(s, id, t)
      ensures shared(NextShared(c, id, s, t, o)) && local(NextShared(c, id, s, t, o), id, NextTask(c, s, t, o))
    {
      OriginStep(c, jobs, id, s, t, o);
    }
    forall id: nat, s, t, o, j: nat, u |
      Enabled(c, s, t) && Allowed(t, o) && shared(s) && local(s, id, t) && j != id && local(s, j, u)
      ensures local(NextShared(c, id, s, t, o), j, u)
    {
      KnownGrows(c, id, s, t, o);
    }
    assert HoldsIn(run[0], shared, local);
    HoldsInRun(c, run, k, shared, local);
  }

  ghost predicate LocalOk(c: Config, jobs: set<Url>, s: Shared, t: Task) {
    InsertsOk(c, jobs, s, t) && CarriesLocally(s, t) && HasNoAnswerYet(t)
  }

  lemma {:induction false} LocalOkStep(c: Config, jobs: set<Url>, id: nat, s: Shared, t: Task, o: Outcome)
    requires Enabled(c, s, t) && OriginsOk(jobs, s) && LocalOk(c, jobs, s, t) && IndexesAreLocal(c)
    requires AllHaveHosts(jobs)
    ensures OriginsOk(jobs, NextShared(c, id, s, t, o))
    ensures LocalOk(c, jobs, NextShared(c, id, s, t, o), NextTask(c, s, t, o))
  {
    OriginStep(c, jobs, id, s, t, o);
    LocalStep(c, jobs, s, t, o);
    NoAnswerStep(c, s, t, o);
    KnownGrows(c, id, s, t, o);
    StaysLocal(s, NextShared(c, id, s, t, o), NextTask(c, s, t, o));
  }

  lemma {:induction false} LocalInRun(c: Config, run: seq<State>, k: nat, i: nat)
    requires IsRun(c, run) && k < |run| && IndexesAreLocal(c) && AllHaveHosts(JobUrls(run[0])) && i < |run[k].tasks|
    ensures CarriesLocally(run[k].shared, run[k].tasks[i])
  {
    var jobs := JobUrls(run[0]);
    var shared: SharedInvariant := s => OriginsOk(jobs, s);
    var local: LocalInvariant := (s: Shared, id: nat, t: Task) => LocalOk(c, jobs, s, t);
    forall id: nat, s, t, o | Enabled(c, s, t) && Allowed(t, o) && shared(s) && local(s, id, t)
      ensures shared(NextShared(c, id, s, t, o)) && local(NextShared(c, id, s, t, o), id, NextTask(c, s, t, o))
    {
      LocalOkStep(c, jobs, id, s, t, o);
    }
    forall id: nat, s, t, o, j: nat, u |
      Enabled(c, s, t) && Allowed(t, o) && shared(s) && local(s, id, t) && j != id && local(s, j, u)
      ensures local(NextShared(c, id, s, t, o), j, u)
    {
      KnownGrows(c, id, s, t, o);
      StaysLocal(s, NextShared(c, id, s, t, o), u);
    }
    assert HoldsIn(run[0], shared, local);
    HoldsInRun(c, run, k, shared, local);
    assert local(run[k].shared, i, run[k].tasks[i]);
  }

  /** URLs that share a fetch lie in one realm. */
  lemma {:induction false} SameKeySameRealm(c: Config, url: Url, other: Url, username: Option<string>)
    requires IndexesAreLocal(c) && KeyFor(c, url, username) == KeyFor(c, other, username)
    ensures RealmOf(url) == RealmOf(other)
  {
  }

  /** The credentials are the published result of a search that was made for a URL of the same realm. */
  predicate WasFoundInRealm(c: Config, s: Shared, t: Task, a: Authentication) {
    var key := KeyOf(c, t);
    && t.answer == Some(Some(a)) && AuthFetches.HasSlot(s, key, Filled(Some(a)))
    && key in s.searchUrls && RealmOf(s.searchUrls[key]) == RealmOf(t.job.url)
  }

  /**
   * No request carries credentials other than its own, those found by a search in its realm, and
   * those known in its realm, given that indexes lie in the realm of the URLs they cover and all
   * URLs have hosts.
   */
  lemma {:induction false} CredentialsStayInTheirRealm(c: Config, run: seq<State>, k: nat, i: nat, n: nat)
    requires IsRun(c, run) && k < |run| && IndexesAreLocal(c) && AllHaveHosts(JobUrls(run[0]))
    requires i < |run[k].tasks| && n < |run[k].tasks[i].sends| && run[k].tasks[i].sends[n].header.Carries?
    ensures var s, t, header := run[k].shared, run[k].tasks[i], run[k].tasks[i].sends[n].header;
      || (t.job.Handle? && header == t.job.header)
      || WasFoundInRealm(c, s, t, header.auth)
      || IsKnown(s, RealmOf(t.job.url), header.auth)
  {
    var s, t := run[k].shared, run[k].tasks[i];
    LocalInRun(c, run, k, i);
    assert CameFrom(s, t, t.sends[n].header);
    if t.answer.Some? {
      AuthFetches.AnswersWereSearched(c, run, k, i);
      var key := KeyOf(c, t);
      SameKeySameRealm(c, s.searchUrls[key], t.job.url, key.username);
    }
  }
}
