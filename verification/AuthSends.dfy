/**
 * What one request may send, in every run: at most two requests, the second only after a refusal;
 * nothing unauthenticated where authentication is required; nothing but the request itself where
 * it is forbidden. They depend on each request by itself, whatever the shared state holds.
 */
module AuthSends {
  import opened Wrappers
  import opened Realm
  import opened CredentialsCache
  import opened AuthProtocol
  import opened AuthRuns

  /** The response was 401 Unauthorized, 403 Forbidden or 404 Not Found. */
  predicate WasRefused(send: Send) {
    send.status == Some(401) || send.status == Some(403) || send.status == Some(404)
  }

  predicate HasPolicy(c: Config, url: Url, policy: Policy) {
    match c.indexFor(url)
    case Some(index) => index.policy == policy
    case None => policy == Auto
  }

  /**
   * Requests must be authenticated where all must be, and unless credentials are added outside, for
   * an index with the policy `Always` and for URLs of the token store if there is no policy.
   */
  predicate Requires(c: Config, url: Url) {
    || c.onlyAuthenticated
    || (!c.dependabot && (HasPolicy(c, url, Always) || (HasPolicy(c, url, Auto) && c.isKnown(url))))
  }

  /** The policy forbids authentication, and nothing overrides it. */
  predicate MustNotAuthenticate(c: Config, t: Task) {
    HasPolicy(c, t.job.url, Never) && !c.onlyAuthenticated
  }

  /** The promise about the requests that a task has sent so far, and about what it returns. */
  predicate SendsWell(c: Config, t: Task) {
    && |t.sends| <= 2
    && (|t.sends| == 2 ==> WasRefused(t.sends[0]) && t.sends[1].header.Carries?)
    && (Requires(c, t.job.url) ==> |t.sends| <= 1 && (t.sends != [] ==> t.sends[0].header.Carries?))
    && (t.job.Handle? && MustNotAuthenticate(c, t) ==>
         |t.sends| <= 1 && (t.sends != [] ==> t.sends[0].header == t.job.header))
    && (t.job.Handle? && MustNotAuthenticate(c, t) && t.pc.Ended? ==> |t.sends| == 1)
    && (t.pc.Ended? && t.pc.result.Some? && t.job.Handle? ==>
         t.sends != [] && t.pc.result == t.sends[|t.sends| - 1].status)
  }

  /** Nothing has been sent, or one request that was refused and that needed no authentication. */
  predicate MaySend(c: Config, t: Task) {
    t.sends == [] || (|t.sends| == 1 && WasRefused(t.sends[0]) && !Requires(c, t.job.url))
  }

  /** What holds at each point of handling a request. */
  predicate HandlesWell(c: Config, t: Task)
    requires t.job.Handle?
  {
    match t.pc
    case Begin => t.sends == [] && t.header == t.job.header
    case Attempt =>
      t.sends == [] && (HasPolicy(c, t.job.url, Never) ==> t.header == t.job.header) && !IsUserRequest(c, t)
    case UrlLookup => t.sends == [] && !HasPolicy(c, t.job.url, Never) && !IsUserRequest(c, t)
    case Complete(_) => MaySend(c, t) && !MustNotAuthenticate(c, t) && t.header.Carries?
    case Ended(_) => true
    case _ =>
      && !MustNotAuthenticate(c, t) && (if IsInserting(t.pc) then t.sends != [] else MaySend(c, t))
      && (IsUserLookup(t.pc) ==> IsUserRequest(c, t)) && (IsUserRequest(c, t) ==> t.header.Carries?)
  }

  predicate RemembersResponse(t: Task) {
    t.response == (if t.sends == [] then None else t.sends[|t.sends| - 1].status)
  }

  predicate SendsOk(c: Config, t: Task) {
    && SendsWell(c, t) && RemembersResponse(t)
    && (t.job.Handle? ==> HandlesWell(c, t))
    && (t.job.Store? ==> t.sends == [] && (t.pc.Begin? || IsInserting(t.pc) || t.pc.Ended?))
  }

  lemma {:induction false} SendsAtStart(c: Config, t: Task)
    requires IsFreshTask(t)
    ensures SendsOk(c, t)
  {
  }

  /** Whatever the first lookup finds. */
  lemma {:induction false} UrlLookupStep(c: Config, t: Task, found: Found)
    requires SendsOk(c, t) && t.pc.UrlLookup?
    ensures SendsOk(c, AfterUrlLookup(t, found))
  {
  }

  lemma {:induction false} DecidedStep(c: Config, t: Task, found: Found)
    requires SendsOk(c, t) && (t.pc.IndexLookup? || t.pc.RealmLookup?)
    ensures SendsOk(c, Decided(t, found))
  {
  }

  lemma {:induction false} NextLookupStep(c: Config, t: Task)
    requires SendsOk(c, t) && t.pc.IndexLookup?
    ensures SendsOk(c, t.(pc := RealmLookup))
  {
  }

  lemma {:induction false} CachedStep(c: Config, t: Task, found: Found, miss: Pc)
    requires SendsOk(c, t) && IsUserLookup(t.pc) && (miss.UserRoot? || miss.UserUrl? || miss.Register?)
    ensures SendsOk(c, IfCached(t, found, miss))
  {
  }

  lemma {:induction false} UserRealmStep(c: Config, t: Task, found: Found)
    requires SendsOk(c, t) && t.pc.UserRealm?
    ensures found.Some? ==> SendsOk(c, Authenticate(t, found.value, Complete(found)))
    ensures SendsOk(c, t.(pc := Complete(t.credentials)))
  {
  }

  lemma {:induction false} LookupStep(c: Config, s: Shared, t: Task)
    requires SendsOk(c, t) && IsLookup(t.pc)
    ensures SendsOk(c, AfterLookup(c, s, t))
  {
    if t.pc.UrlLookup? {
      UrlLookupStep(c, t, AtUrl(s.urls, t.job.url, None));
    } else if t.pc.IndexLookup? {
      var index := c.indexFor(t.job.url);
      DecidedStep(c, t, if index.Some? then AtUrl(s.urls, index.value.url, UsernameFor(t)) else None);
      NextLookupStep(c, t);
    } else {
      DecidedStep(c, t, InRealm(s.realms, RealmOf(t.job.url), UsernameFor(t)));
    }
  }

  lemma {:induction false} UserLookupStep(c: Config, s: Shared, t: Task)
    requires SendsOk(c, t) && IsUserLookup(t.pc)
    ensures SendsOk(c, AfterUserLookup(c, s, t))
  {
    var index := c.indexFor(t.job.url);
    match t.pc
    case UserFirst =>
      if index.Some? {
        CachedStep(c, t, AtUrl(s.urls, index.value.url, UsernameFor(t)), UserRoot);
      } else {
        CachedStep(c, t, InRealm(s.realms, RealmOf(t.job.url), UsernameFor(t)), UserUrl);
      }
    case UserRoot =>
      CachedStep(c, t, if index.Some? then AtUrl(s.urls, index.value.root, UsernameFor(t)) else None, UserUrl);
    case UserUrl => CachedStep(c, t, AtUrl(s.urls, t.job.url, UsernameFor(t)), Register);
    case UserRealm => UserRealmStep(c, t, InRealm(s.realms, RealmOf(t.job.url), UsernameFor(t)));
  }

  lemma {:induction false} FetchingStep(c: Config, s: Shared, t: Task, o: Outcome)
    requires Enabled(c, s, t) && SendsOk(c, t) && IsFetching(t.pc)
    ensures SendsOk(c, AfterFetching(c, s, t, o))
  {
    FetchingTask(c, s, t, o);
    FetchingKeeps(c, t, AfterFetching(c, s, t, o));
  }

  lemma {:induction false} FetchingKeeps(c: Config, t: Task, t': Task)
    requires SendsOk(c, t) && IsFetching(t.pc) && t' == t.(pc := t'.pc, answer := t'.answer)
    requires t'.pc.Fetched? || (IsFetching(t'.pc) && !t'.pc.Register?)
    ensures SendsOk(c, t')
  {
    assert IsUserRequest(c, t') <==> IsUserRequest(c, t);
  }

  lemma {:induction false} StartStep(c: Config, t: Task)
    requires SendsOk(c, t) && t.pc.Begin?
    ensures SendsOk(c, Start(c, t))
  {
  }

  lemma {:induction false} InsertingStep(c: Config, t: Task)
    requires SendsOk(c, t) && IsInserting(t.pc)
    ensures SendsOk(c, AfterInserting(t))
  {
    var t' := AfterInserting(t);
    assert t' == t.(pc := t'.pc) && (t'.pc == Ended(t.response) || IsInserting(t'.pc));
  }

  lemma {:induction false} FetchedStep(c: Config, t: Task, found: Found)
    requires SendsOk(c, t) && t.pc.Fetched?
    ensures SendsOk(c, AfterFetch(c, t, found))
  {
  }

  lemma {:induction false} AttemptStep(c: Config, t: Task, status: Option<nat>)
    requires SendsOk(c, t) && t.pc.Attempt?
    ensures SendsOk(c, AfterAttempt(c, t, status))
  {
  }

  lemma {:induction false} CompleteStep(c: Config, t: Task, insert: Found, status: Option<nat>)
    requires SendsOk(c, t) && t.pc.Complete?
    ensures SendsOk(c, AfterComplete(c, t, insert, status))
  {
    var t' := AfterComplete(c, t, insert, status);
    assert |t'.sends| > 0 ==> t'.sends[0] == if t.sends == [] then Send(t.header, status) else t.sends[0];
  }

  lemma {:induction false} SendsAreKept(c: Config)
    ensures IsKept(c, s => true, t => SendsOk(c, t))
  {
    var shared: SharedInvariant := s => true;
    var inv: TaskInvariant := t => SendsOk(c, t);
    SendsOutside(c, inv);
    forall s, t | SendsOk(c, t) && IsLookup(t.pc) ensures SendsOk(c, AfterLookup(c, s, t)) {
      LookupStep(c, s, t);
    }
    forall s, t | SendsOk(c, t) && IsUserLookup(t.pc) ensures SendsOk(c, AfterUserLookup(c, s, t)) {
      UserLookupStep(c, s, t);
    }
    forall s, t, o | Enabled(c, s, t) && SendsOk(c, t) && IsFetching(t.pc)
      ensures SendsOk(c, AfterFetching(c, s, t, o))
    {
      FetchingStep(c, s, t, o);
    }
    KeptByCases(c, shared, inv);
  }

  lemma {:induction false} SendsOutside(c: Config, inv: TaskInvariant)
    requires forall t :: inv(t) <==> SendsOk(c, t)
    ensures IsKeptOutside(c, inv)
  {
    forall t | SendsOk(c, t) && t.pc.Begin? ensures SendsOk(c, Start(c, t)) {
      StartStep(c, t);
    }
    forall t, status | SendsOk(c, t) && t.pc.Attempt? ensures SendsOk(c, AfterAttempt(c, t, status)) {
      AttemptStep(c, t, status);
    }
    forall t | SendsOk(c, t) && t.pc.Fetched? ensures SendsOk(c, AfterFetch(c, t, t.pc.found)) {
      FetchedStep(c, t, t.pc.found);
    }
    forall t, status | SendsOk(c, t) && t.pc.Complete? ensures SendsOk(c, AfterComplete(c, t, t.pc.insert, status)) {
      CompleteStep(c, t, t.pc.insert, status);
    }
    forall t | SendsOk(c, t) && IsInserting(t.pc) ensures SendsOk(c, AfterInserting(t)) {
      InsertingStep(c, t);
    }
  }

  /** In every state of every run, every task keeps the promise. */
  lemma {:induction false} EveryTaskSendsWell(c: Config, run: seq<State>, k: nat, i: nat)
    requires IsRun(c, run) && k < |run| && i < |run[k].tasks|
    ensures SendsOk(c, run[k].tasks[i]) && SendsWell(c, run[k].tasks[i])
  {
    SendsAreKept(c);
    forall j: nat | j < |run[0].tasks| ensures SendsOk(c, run[0].tasks[j]) {
      SendsAtStart(c, run[0].tasks[j]);
    }
    TaskInRun(c, run, k, i, s => true, t => SendsOk(c, t));
  }

  /** In every run, the step of a request that must not be authenticated changes nothing in the cache. */
  lemma {:induction false} NoCacheWrite(c: Config, run: seq<State>, k: nat, id: nat, o: Outcome)
    requires IsRun(c, run) && k + 1 < |run| && CanStep(c, run[k], id, o) && run[k + 1] == Next(c, run[k], id, o)
    requires run[k].tasks[id].job.Handle? && MustNotAuthenticate(c, run[k].tasks[id])
    ensures var s, s' := run[k].shared, run[k + 1].shared;
      s'.realms == s.realms && s'.urls == s.urls && s'.fetches == s.fetches && s'.token == s.token
  {
    EveryTaskSendsWell(c, run, k, id);
    OnlyAttempts(c, id, run[k].shared, run[k].tasks[id], o);
  }

  lemma {:induction false} OnlyAttempts(c: Config, id: nat, s: Shared, t: Task, o: Outcome)
    requires Enabled(c, s, t) && SendsOk(c, t) && t.job.Handle? && MustNotAuthenticate(c, t)
    ensures t.pc.Begin? || t.pc.Attempt? || t.pc.UrlLookup?
    ensures var s' := NextShared(c, id, s, t, o);
      s'.realms == s.realms && s'.urls == s.urls && s'.fetches == s.fetches && s'.token == s.token
  {
  }
}
