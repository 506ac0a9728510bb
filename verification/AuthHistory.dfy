/**
 * How the requests that a task sends follow from what it found, in every run: what the cache held
 * for the URL, then for the index or realm, and what a search answered. Other tasks may change the
 * cache between any two of these.
 */
module AuthHistory {
  import opened Wrappers
  import opened Realm
  import opened CredentialsCache
  import opened AuthProtocol
  import opened AuthRuns
  import opened AuthSends

  /** A request in which the middleware recognises no credentials, or ignores them under the policy `Never`. */
  predicate IsBare(c: Config, t: Task) {
    t.job.Handle? && (HasPolicy(c, t.job.url, Never) || !(t.job.header.Carries? && t.job.header.auth.Plain?))
  }

  predicate Authenticates(found: Found) {
    found.Some? && IsAuthenticated(found.value)
  }

  predicate HasFound(t: Task) {
    t.answer.Some? && t.answer.value.Some?
  }

  /** The credentials that the request is finally sent with, if any. */
  function Chosen(t: Task): Found {
    if Authenticates(t.atUrl) then t.atUrl
    else if Authenticates(t.elsewhere) then t.elsewhere
    else if HasFound(t) then t.answer.value
    else if t.answer.Some? && t.atUrl.None? then t.elsewhere
    else None
  }

  /** Under the policy `Always`, what a search finds is refused without a password. */
  predicate IsRefused(c: Config, t: Task) {
    HasFound(t) && HasPolicy(c, t.job.url, Always) && PasswordOf(t.answer.value.value).None?
  }

  /** A request is attempted first unless it must be authenticated or the cache authenticates it. */
  predicate AttemptsFirst(c: Config, t: Task) {
    !Requires(c, t.job.url) && !Authenticates(t.atUrl)
  }

  function FirstHeader(t: Task): Header
    requires t.job.Handle?
  {
    if t.atUrl.Some? then Carries(t.atUrl.value) else t.job.header
  }

  predicate HasAttempted(t: Task)
    requires t.job.Handle?
  {
    |t.sends| == 1 && t.sends[0].header == FirstHeader(t)
  }

  /** The first attempt, where there is one, was refused, and nothing has been sent since. */
  predicate IsRefusedSoFar(c: Config, t: Task)
    requires t.job.Handle?
  {
    if AttemptsFirst(c, t) then HasAttempted(t) && WasRefused(t.sends[0]) else t.sends == []
  }

  /** What the cache holds is never empty, so what does not authenticate is a username. */
  predicate IsMere(found: Found) {
    found.Some? ==> !IsAuthenticated(found.value) && UserOf(found.value).Some?
  }

  predicate KnowsNothing(t: Task) {
    t.atUrl.None? && t.elsewhere.None? && t.answer.None? && t.credentials.None? && !t.named && t.sends == []
  }

  predicate KnowsUrl(t: Task) {
    && t.elsewhere.None? && t.answer.None? && t.credentials == t.atUrl && t.named == t.atUrl.Some?
    && IsMere(t.atUrl)
  }

  predicate KnowsCache(t: Task) {
    && IsMere(t.atUrl) && IsMere(t.elsewhere) && t.named == t.atUrl.Some?
    && t.credentials == (if t.elsewhere.Some? then t.elsewhere else t.atUrl)
  }

  /** How the request ended: at the first attempt, for want of credentials, refused, or sent with the ones chosen. */
  predicate HasEndedWell(c: Config, t: Task)
    requires t.job.Handle?
  {
    || (AttemptsFirst(c, t) && HasAttempted(t) && t.elsewhere.None? && t.answer.None?
        && (!WasRefused(t.sends[0]) || HasPolicy(c, t.job.url, Never)))
    || (t.answer == Some(None) && Chosen(t).None? && IsRefusedSoFar(c, t))
    || (IsRefused(c, t) && IsRefusedSoFar(c, t) && t.pc == Ended(None))
    || (!IsRefused(c, t) && Chosen(t).Some? && IsSentAsChosen(c, t))
  }

  predicate IsSentAsChosen(c: Config, t: Task)
    requires t.job.Handle? && Chosen(t).Some?
  {
    && |t.sends| == (if AttemptsFirst(c, t) then 2 else 1)
    && (|t.sends| == 2 ==> t.sends[0].header == FirstHeader(t) && WasRefused(t.sends[0]))
    && t.sends[|t.sends| - 1].header == Carries(Chosen(t).value)
  }

  predicate HistoryOk(c: Config, t: Task)
    requires t.job.Handle?
  {
    && (HasFound(t) || t.answer == Some(None) ==> IsMere(t.atUrl) && IsMere(t.elsewhere))
    && (HasPolicy(c, t.job.url, Never) ==> t.atUrl.None? && !t.pc.UrlLookup?)
    && match t.pc
       case Begin => KnowsNothing(t) && t.header == t.job.header
       case UrlLookup => KnowsNothing(t) && t.header == t.job.header
       case Attempt => KnowsUrl(t) && t.sends == [] && t.header == FirstHeader(t)
       case IndexLookup => KnowsUrl(t) && IsRefusedSoFar(c, t)
       case RealmLookup => KnowsUrl(t) && IsRefusedSoFar(c, t)
       case Fetched(found) => KnowsCache(t) && t.answer == Some(found) && IsRefusedSoFar(c, t)
       case Complete(insert) =>
         && Chosen(t).Some? && t.header == Carries(Chosen(t).value)
         && insert == (if HasFound(t) then Chosen(t) else None)
         && IsRefusedSoFar(c, t)
       case _ =>
         if IsFetching(t.pc) then KnowsCache(t) && t.answer.None? && IsRefusedSoFar(c, t)
         else (IsInserting(t.pc) || t.pc.Ended?) && HasEndedWell(c, t)
  }

  // ---------------------------------------------------------------------------------------------
  // The cache holds nothing empty

  ghost predicate NothingEmpty(s: Shared) {
    && (forall key :: key in s.realms ==> !IsEmpty(s.realms[key]))
    && (forall key :: key in s.urls ==> !IsEmpty(s.urls[key]))
  }

  predicate InsertsNothingEmpty(t: Task) {
    t.pc.InsertRealm? || t.pc.InsertUrl? ==> !IsEmpty(t.pc.auth)
  }

  lemma {:induction false} WhatDoesNotAuthenticate(a: Authentication)
    requires !IsEmpty(a) && !IsAuthenticated(a)
    ensures UserOf(a).Some?
  {
    match a
    case Plain(Basic(_, _)) =>
    case Plain(Bearer(_)) =>
    case Signer =>
  }

  lemma {:induction false} NothingEmptyStep(c: Config, id: nat, s: Shared, t: Task, o: Outcome)
    requires Enabled(c, s, t) && NothingEmpty(s) && InsertsNothingEmpty(t)
    ensures NothingEmpty(NextShared(c, id, s, t, o))
  {
  }

  lemma {:induction false} InsertsNothingEmptyStep(c: Config, s: Shared, t: Task, o: Outcome)
    requires Enabled(c, s, t) && InsertsNothingEmpty(t)
    ensures InsertsNothingEmpty(NextTask(c, s, t, o))
  {
    if IsLookup(t.pc) {
      LookupTask(c, s, t);
    } else if IsUserLookup(t.pc) {
      UserLookupTask(c, s, t);
    } else if IsFetching(t.pc) {
      FetchingTask(c, s, t, o);
    }
  }

  /** What a lookup without a username finds authenticates or is a username. */
  predicate IsUseful(found: Found) {
    found.Some? && !IsAuthenticated(found.value) ==> UserOf(found.value).Some?
  }

  lemma {:induction false} LookupsAreUseful(s: Shared, url: Url, realm: Realm, username: Option<string>)
    requires NothingEmpty(s)
    ensures IsUseful(AtUrl(s.urls, url, username)) && IsUseful(InRealm(s.realms, realm, username))
  {
    var found := AtUrl(s.urls, url, username);
    if found.Some? {
      AtUrlIsPrefix(s.urls, url, username);
      if !IsAuthenticated(found.value) {
        WhatDoesNotAuthenticate(found.value);
      }
    }
    var other := InRealm(s.realms, realm, username);
    if other.Some? && !IsAuthenticated(other.value) {
      WhatDoesNotAuthenticate(other.value);
    }
  }

  // ---------------------------------------------------------------------------------------------
  // Steps

  lemma {:induction false} UrlLookupHistory(c: Config, t: Task, found: Found)
    requires IsBare(c, t) && HistoryOk(c, t) && t.pc.UrlLookup? && IsUseful(found)
    ensures HistoryOk(c, AfterUrlLookup(t, found))
  {
  }

  lemma {:induction false} DecidedHistory(c: Config, t: Task, found: Found)
    requires IsBare(c, t) && HistoryOk(c, t) && (t.pc.IndexLookup? || t.pc.RealmLookup?) && IsUseful(found)
    ensures HistoryOk(c, Decided(t, found))
  {
  }

  lemma {:induction false} NextLookupHistory(c: Config, t: Task)
    requires IsBare(c, t) && HistoryOk(c, t) && t.pc.IndexLookup?
    ensures HistoryOk(c, t.(pc := RealmLookup))
  {
  }

  lemma {:induction false} LookupHistory(c: Config, s: Shared, t: Task)
    requires IsBare(c, t) && HistoryOk(c, t) && IsLookup(t.pc) && NothingEmpty(s)
    ensures HistoryOk(c, AfterLookup(c, s, t))
  {
    var url, user := t.job.url, UsernameFor(t);
    if t.pc.UrlLookup? {
      LookupsAreUseful(s, url, RealmOf(url), None);
      UrlLookupHistory(c, t, AtUrl(s.urls, url, None));
    } else if t.pc.RealmLookup? {
      LookupsAreUseful(s, url, RealmOf(url), user);
      DecidedHistory(c, t, InRealm(s.realms, RealmOf(url), user));
    } else {
      var index := c.indexFor(url);
      if index.Some? {
        LookupsAreUseful(s, index.value.url, RealmOf(url), user);
      }
      DecidedHistory(c, t, if index.Some? then AtUrl(s.urls, index.value.url, user) else None);
      NextLookupHistory(c, t);
    }
  }

  lemma {:induction false} FetchingHistory(c: Config, s: Shared, t: Task, o: Outcome)
    requires Enabled(c, s, t) && IsBare(c, t) && HistoryOk(c, t) && IsFetching(t.pc)
    ensures HistoryOk(c, AfterFetching(c, s, t, o))
  {
    FetchingTask(c, s, t, o);
    var t' := AfterFetching(c, s, t, o);
    assert FirstHeader(t') == FirstHeader(t) && KnowsCache(t') && IsRefusedSoFar(c, t');
  }

  lemma {:induction false} FetchedHistory(c: Config, t: Task, found: Found)
    requires IsBare(c, t) && HistoryOk(c, t) && t.pc == Fetched(found)
    ensures HistoryOk(c, AfterFetch(c, t, found))
  {
    assert !IsUserRequest(c, t);
  }

  lemma {:induction false} AttemptHistory(c: Config, t: Task, status: Option<nat>)
    requires IsBare(c, t) && HistoryOk(c, t) && t.pc.Attempt?
    ensures HistoryOk(c, AfterAttempt(c, t, status))
  {
  }

  lemma {:induction false} CompleteHistory(c: Config, t: Task, insert: Found, status: Option<nat>)
    requires IsBare(c, t) && HistoryOk(c, t) && t.pc == Complete(insert)
    ensures HistoryOk(c, AfterComplete(c, t, insert, status))
  {
    CompletesWith(c, t, insert, status);
    if IsRefused(c, t) {
      RefusedHistory(c, t);
    } else {
      SentHistory(c, t, status, AfterComplete(c, t, insert, status).pc);
    }
  }

  lemma {:induction false} CompletesWith(c: Config, t: Task, insert: Found, status: Option<nat>)
    requires IsBare(c, t) && HistoryOk(c, t) && t.pc == Complete(insert)
    ensures var t' := AfterComplete(c, t, insert, status);
      if IsRefused(c, t) then t' == t.(pc := Ended(None))
      else t' == Sent(t, status, t'.pc) && (IsInserting(t'.pc) || t'.pc.Ended?)
  {
  }

  lemma {:induction false} SentHistory(c: Config, t: Task, status: Option<nat>, pc: Pc)
    requires IsBare(c, t) && HistoryOk(c, t) && t.pc.Complete? && !IsRefused(c, t) && (IsInserting(pc) || pc.Ended?)
    ensures HistoryOk(c, Sent(t, status, pc))
  {
    SentAsChosen(c, t, status, pc);
  }

  lemma {:induction false} RefusedHistory(c: Config, t: Task)
    requires IsBare(c, t) && HistoryOk(c, t) && t.pc.Complete? && IsRefused(c, t)
    ensures HistoryOk(c, t.(pc := Ended(None)))
  {
  }

  lemma {:induction false} SentAsChosen(c: Config, t: Task, status: Option<nat>, pc: Pc)
    requires t.job.Handle? && IsRefusedSoFar(c, t) && Chosen(t).Some? && t.header == Carries(Chosen(t).value)
    ensures Chosen(Sent(t, status, pc)) == Chosen(t) && IsSentAsChosen(c, Sent(t, status, pc))
  {
    var t' := Sent(t, status, pc);
    assert |t.sends| == 1 ==> t'.sends[0] == t.sends[0];
  }

  lemma {:induction false} InsertingHistory(c: Config, t: Task)
    requires IsBare(c, t) && HistoryOk(c, t) && IsInserting(t.pc)
    ensures HistoryOk(c, AfterInserting(t))
  {
    var t' := AfterInserting(t);
    assert t' == t.(pc := t'.pc) && !IsRefused(c, t);
    assert HasEndedWell(c, t') by {
      assert Chosen(t') == Chosen(t) && FirstHeader(t') == FirstHeader(t);
    }
  }

  lemma {:induction false} StartHistory(c: Config, t: Task)
    requires IsBare(c, t) && HistoryOk(c, t) && t.pc.Begin?
    ensures HistoryOk(c, Start(c, t))
  {
  }

  predicate BareOk(c: Config, t: Task) {
    IsBare(c, t) ==> HistoryOk(c, t) && !IsUserLookup(t.pc)
  }

  lemma {:induction false} BareIsKept(c: Config)
    ensures IsKept(c, s => NothingEmpty(s), t => BareOk(c, t))
  {
    var shared: SharedInvariant := s => NothingEmpty(s);
    var inv: TaskInvariant := t => BareOk(c, t);
    BareOutside(c, inv);
    forall s, t | shared(s) && inv(t) && IsLookup(t.pc) ensures inv(AfterLookup(c, s, t)) {
      LookupTask(c, s, t);
      if IsBare(c, t) {
        LookupHistory(c, s, t);
      }
    }
    forall s, t | shared(s) && inv(t) && IsUserLookup(t.pc) ensures inv(AfterUserLookup(c, s, t)) {
      UserLookupTask(c, s, t);
    }
    forall s, t, o | Enabled(c, s, t) && Allowed(t, o) && shared(s) && inv(t) && IsFetching(t.pc)
      ensures inv(AfterFetching(c, s, t, o))
    {
      FetchingTask(c, s, t, o);
      if IsBare(c, t) {
        FetchingHistory(c, s, t, o);
      }
    }
    KeptByCases(c, shared, inv);
  }

  lemma {:induction false} BareOutside(c: Config, inv: TaskInvariant)
    requires forall t :: inv(t) <==> BareOk(c, t)
    ensures IsKeptOutside(c, inv)
  {
    forall t | BareOk(c, t) && t.pc.Begin? ensures BareOk(c, Start(c, t)) {
      BareStarts(c, t);
    }
    forall t, status | BareOk(c, t) && t.pc.Attempt? ensures BareOk(c, AfterAttempt(c, t, status)) {
      BareAttempts(c, t, status);
    }
    forall t | BareOk(c, t) && t.pc.Fetched? ensures BareOk(c, AfterFetch(c, t, t.pc.found)) {
      BareFetched(c, t);
    }
    forall t, status | BareOk(c, t) && t.pc.Complete? ensures BareOk(c, AfterComplete(c, t, t.pc.insert, status)) {
      BareCompletes(c, t, status);
    }
    forall t | BareOk(c, t) && IsInserting(t.pc) ensures BareOk(c, AfterInserting(t)) {
      BareInserts(c, t);
    }
  }

  lemma {:induction false} BareStarts(c: Config, t: Task)
    requires BareOk(c, t) && t.pc.Begin?
    ensures BareOk(c, Start(c, t))
  {
    if IsBare(c, t) {
      StartHistory(c, t);
    }
  }

  lemma {:induction false} BareAttempts(c: Config, t: Task, status: Option<nat>)
    requires BareOk(c, t) && t.pc.Attempt?
    ensures BareOk(c, AfterAttempt(c, t, status))
  {
    if IsBare(c, t) {
      AttemptHistory(c, t, status);
    }
  }

  lemma {:induction false} BareFetched(c: Config, t: Task)
    requires BareOk(c, t) && t.pc.Fetched?
    ensures BareOk(c, AfterFetch(c, t, t.pc.found))
  {
    if IsBare(c, t) {
      FetchedHistory(c, t, t.pc.found);
    }
  }

  lemma {:induction false} BareCompletes(c: Config, t: Task, status: Option<nat>)
    requires BareOk(c, t) && t.pc.Complete?
    ensures BareOk(c, AfterComplete(c, t, t.pc.insert, status))
  {
    if IsBare(c, t) {
      CompleteHistory(c, t, t.pc.insert, status);
    }
  }

  lemma {:induction false} BareInserts(c: Config, t: Task)
    requires BareOk(c, t) && IsInserting(t.pc)
    ensures BareOk(c, AfterInserting(t))
  {
    if IsBare(c, t) {
      InsertingHistory(c, t);
    }
  }

  // ---------------------------------------------------------------------------------------------
  // Requests with a username only

  /** The credentials that such a request is sent with: what a search or the cache has, or its own. */
  function Used(t: Task): Authentication
    requires t.job.Handle? && t.job.header.Carries?
  {
    if HasFound(t) then t.answer.value.value
    else if t.elsewhere.Some? then t.elsewhere.value
    else t.job.header.auth
  }

  /** Under `Always`, what the search led to is refused without a password. */
  predicate UserIsRefused(c: Config, t: Task)
    requires t.job.Handle? && t.job.header.Carries?
  {
    t.answer.Some? && HasPolicy(c, t.job.url, Always) && PasswordOf(Used(t)).None?
  }

  /** What the cache has for a username has a password. */
  predicate HasPasswordIfNamed(t: Task, found: Found)
    requires t.job.Handle? && t.job.header.Carries?
  {
    found.Some? && UserOf(t.job.header.auth).Some? ==> PasswordOf(found.value).Some?
  }

  /** Nothing has been found or sent yet. */
  predicate IsLooking(t: Task)
    requires t.job.Handle? && t.job.header.Carries?
  {
    t.sends == [] && t.elsewhere.None? && t.credentials == Some(t.job.header.auth) && t.header == t.job.header
  }

  predicate UserHistoryOk(c: Config, t: Task)
    requires t.job.Handle? && t.job.header.Carries?
  {
    match t.pc
    case Begin => t.sends == [] && t.elsewhere.None? && t.answer.None? && t.header == t.job.header
    case Fetched(found) => IsLooking(t) && t.answer == Some(found)
    case UserRealm => IsLooking(t) && t.answer == Some(None)
    case Complete(insert) =>
      && t.sends == [] && t.header == Carries(Used(t)) && UserHasUsed(t)
      && insert == (if t.answer.Some? then Some(Used(t)) else None)
    case _ =>
      if IsInserting(t.pc) || t.pc.Ended? then UserHasUsed(t) && UserHasEndedWell(c, t)
      else IsLooking(t) && t.answer.None? && (IsUserLookup(t.pc) || IsFetching(t.pc))
  }

  /** A request that did not search uses what the cache has. */
  predicate UserHasUsed(t: Task)
    requires t.job.Handle? && t.job.header.Carries?
  {
    (t.answer.None? ==> t.elsewhere.Some?) && HasPasswordIfNamed(t, t.elsewhere)
  }

  predicate UserHasEndedWell(c: Config, t: Task)
    requires t.job.Handle? && t.job.header.Carries?
  {
    if UserIsRefused(c, t) then t.sends == [] && t.pc == Ended(None)
    else |t.sends| == 1 && t.sends[0].header == Carries(Used(t))
  }

  lemma {:induction false} CachedHistory(c: Config, t: Task, found: Found, miss: Pc)
    requires t.job.Handle? && t.job.header.Carries? && UserHistoryOk(c, t) && HasPasswordIfNamed(t, found)
    requires IsUserLookup(t.pc) && !t.pc.UserRealm? && (miss.UserRoot? || miss.UserUrl? || miss.Register?)
    ensures UserHistoryOk(c, IfCached(t, found, miss))
  {
  }

  lemma {:induction false} UserRealmHistory(c: Config, t: Task, found: Found)
    requires t.job.Handle? && t.job.header.Carries? && UserHistoryOk(c, t) && HasPasswordIfNamed(t, found)
    requires t.pc.UserRealm?
    ensures found.Some? ==>
              UserHistoryOk(c, Authenticate(t, found.value, Complete(found)).(elsewhere := found))
    ensures UserHistoryOk(c, t.(pc := Complete(t.credentials)))
  {
  }

  predicate UserOk(c: Config, t: Task) {
    IsUserRequest(c, t) ==> UserHistoryOk(c, t)
  }

  lemma {:induction false} UserIsKept(c: Config)
    ensures IsKept(c, s => true, t => UserOk(c, t))
  {
    var shared: SharedInvariant := s => true;
    var inv: TaskInvariant := t => UserOk(c, t);
    UserOutside(c, inv);
    forall s, t | UserOk(c, t) && IsLookup(t.pc) ensures UserOk(c, AfterLookup(c, s, t)) {
      LookupTask(c, s, t);
      assert !IsUserRequest(c, t);
    }
    forall s, t | UserOk(c, t) && IsUserLookup(t.pc) ensures UserOk(c, AfterUserLookup(c, s, t)) {
      UserLooksUp(c, s, t);
    }
    forall s, t, o | Enabled(c, s, t) && UserOk(c, t) && IsFetching(t.pc) ensures UserOk(c, AfterFetching(c, s, t, o)) {
      UserFetches(c, s, t, o);
    }
    KeptByCases(c, shared, inv);
  }

  lemma {:induction false} UserLooksUp(c: Config, s: Shared, t: Task)
    requires UserOk(c, t) && IsUserLookup(t.pc)
    ensures UserOk(c, AfterUserLookup(c, s, t))
  {
    UserLookupTask(c, s, t);
    if IsUserRequest(c, t) {
      var url, user, index := t.job.url, UsernameFor(t), c.indexFor(t.job.url);
      assert user == UserOf(t.job.header.auth);
      match t.pc
      case UserRealm => UserRealmHistory(c, t, InRealm(s.realms, RealmOf(url), user));
      case UserUrl => CachedHistory(c, t, AtUrl(s.urls, url, user), Register);
      case UserRoot =>
        CachedHistory(c, t, if index.Some? then AtUrl(s.urls, index.value.root, user) else None, UserUrl);
      case UserFirst =>
        if index.Some? {
          CachedHistory(c, t, AtUrl(s.urls, index.value.url, user), UserRoot);
        } else {
          CachedHistory(c, t, InRealm(s.realms, RealmOf(url), user), UserUrl);
        }
    }
  }

  lemma {:induction false} UserFetches(c: Config, s: Shared, t: Task, o: Outcome)
    requires Enabled(c, s, t) && UserOk(c, t) && IsFetching(t.pc)
    ensures UserOk(c, AfterFetching(c, s, t, o))
  {
    FetchingTask(c, s, t, o);
  }

  lemma {:induction false} UserSends(c: Config, t: Task, status: Option<nat>, pc: Pc)
    requires IsUserRequest(c, t) && UserHistoryOk(c, t) && t.pc.Complete? && !UserIsRefused(c, t)
    requires IsInserting(pc) || pc.Ended?
    ensures UserHistoryOk(c, Sent(t, status, pc))
  {
    assert Used(Sent(t, status, pc)) == Used(t);
  }

  lemma {:induction false} UserIsNotSent(c: Config, t: Task)
    requires IsUserRequest(c, t) && UserHistoryOk(c, t) && t.pc.Complete? && UserIsRefused(c, t)
    ensures UserHistoryOk(c, t.(pc := Ended(None)))
  {
    assert Used(t.(pc := Ended(None))) == Used(t);
  }

  lemma {:induction false} UserCompletesWith(c: Config, t: Task, insert: Found, status: Option<nat>)
    requires IsUserRequest(c, t) && UserHistoryOk(c, t) && t.pc == Complete(insert)
    ensures var t' := AfterComplete(c, t, insert, status);
      if UserIsRefused(c, t) then t' == t.(pc := Ended(None))
      else t' == Sent(t, status, t'.pc) && (IsInserting(t'.pc) || t'.pc.Ended?)
  {
  }

  lemma {:induction false} UserCompletes(c: Config, t: Task, status: Option<nat>)
    requires UserOk(c, t) && t.pc.Complete?
    ensures UserOk(c, AfterComplete(c, t, t.pc.insert, status))
  {
    var t' := AfterComplete(c, t, t.pc.insert, status);
    if IsUserRequest(c, t) {
      UserCompletesWith(c, t, t.pc.insert, status);
      if UserIsRefused(c, t) {
        UserIsNotSent(c, t);
      } else {
        UserSends(c, t, status, t'.pc);
      }
    }
  }

  lemma {:induction false} UserFetched(c: Config, t: Task)
    requires UserOk(c, t) && t.pc.Fetched?
    ensures UserOk(c, AfterFetch(c, t, t.pc.found))
  {
  }

  lemma {:induction false} UserStarts(c: Config, t: Task)
    requires UserOk(c, t) && t.pc.Begin?
    ensures UserOk(c, Start(c, t))
  {
  }

  lemma {:induction false} UserInserts(c: Config, t: Task)
    requires UserOk(c, t) && IsInserting(t.pc)
    ensures UserOk(c, AfterInserting(t))
  {
  }

  lemma {:induction false} UserOutside(c: Config, inv: TaskInvariant)
    requires forall t :: inv(t) <==> UserOk(c, t)
    ensures IsKeptOutside(c, inv)
  {
    forall t | UserOk(c, t) && t.pc.Begin? ensures UserOk(c, Start(c, t)) {
      UserStarts(c, t);
    }
    forall t, status | UserOk(c, t) && t.pc.Attempt? ensures UserOk(c, AfterAttempt(c, t, status)) {
      UserNeverAttempts(c, t, status);
    }
    forall t | UserOk(c, t) && t.pc.Fetched? ensures UserOk(c, AfterFetch(c, t, t.pc.found)) {
      UserFetched(c, t);
    }
    forall t, status | UserOk(c, t) && t.pc.Complete? ensures UserOk(c, AfterComplete(c, t, t.pc.insert, status)) {
      UserCompletes(c, t, status);
    }
    forall t | UserOk(c, t) && IsInserting(t.pc) ensures UserOk(c, AfterInserting(t)) {
      UserInserts(c, t);
    }
  }

  lemma {:induction false} UserNeverAttempts(c: Config, t: Task, status: Option<nat>)
    requires UserOk(c, t) && t.pc.Attempt?
    ensures UserOk(c, AfterAttempt(c, t, status))
  {
    assert !IsUserRequest(c, t);
  }

  // ---------------------------------------------------------------------------------------------
  // Requests whose credentials authenticate

  predicate IsOwnRequest(c: Config, t: Task) {
    && t.job.Handle? && !HasPolicy(c, t.job.url, Never)
    && t.job.header.Carries? && t.job.header.auth.Plain? && IsAuthenticated(t.job.header.auth)
  }

  /** Such a request is sent as it came, unless it is refused for want of a password. */
  predicate OwnHistoryOk(c: Config, t: Task)
    requires t.job.Handle? && t.job.header.Carries?
  {
    && t.atUrl.None? && t.elsewhere.None? && t.answer.None? && t.header == t.job.header
    && (if t.pc.Begin? then t.sends == []
        else if t.pc.Complete? then t.sends == [] && t.pc.insert == Some(t.job.header.auth)
        else (IsInserting(t.pc) || t.pc.Ended?) && OwnHasEndedWell(c, t))
  }

  predicate OwnHasEndedWell(c: Config, t: Task)
    requires t.job.Handle? && t.job.header.Carries?
  {
    if HasPolicy(c, t.job.url, Always) && PasswordOf(t.job.header.auth).None? then t.sends == [] && t.pc == Ended(None)
    else |t.sends| == 1 && t.sends[0].header == t.job.header
  }

  predicate OwnOk(c: Config, t: Task) {
    IsOwnRequest(c, t) ==> OwnHistoryOk(c, t)
  }

  lemma {:induction false} OwnCompletes(c: Config, t: Task, status: Option<nat>)
    requires OwnOk(c, t) && t.pc.Complete?
    ensures OwnOk(c, AfterComplete(c, t, t.pc.insert, status))
  {
  }

  lemma {:induction false} OwnStarts(c: Config, t: Task)
    requires OwnOk(c, t) && t.pc.Begin?
    ensures OwnOk(c, Start(c, t))
  {
  }

  lemma {:induction false} OwnInserts(c: Config, t: Task)
    requires OwnOk(c, t) && IsInserting(t.pc)
    ensures OwnOk(c, AfterInserting(t))
  {
  }

  lemma {:induction false} OwnNeverLooks(c: Config, t: Task, t': Task)
    requires OwnOk(c, t) && t'.job == t.job && !t.pc.Begin? && !t.pc.Complete? && !IsInserting(t.pc) && !t.pc.Ended?
    ensures OwnOk(c, t')
  {
  }

  lemma {:induction false} OwnOutside(c: Config, inv: TaskInvariant)
    requires forall t :: inv(t) <==> OwnOk(c, t)
    ensures IsKeptOutside(c, inv)
  {
    forall t | OwnOk(c, t) && t.pc.Begin? ensures OwnOk(c, Start(c, t)) {
      OwnStarts(c, t);
    }
    forall t, status | OwnOk(c, t) && t.pc.Attempt? ensures OwnOk(c, AfterAttempt(c, t, status)) {
      OwnNeverLooks(c, t, AfterAttempt(c, t, status));
    }
    forall t | OwnOk(c, t) && t.pc.Fetched? ensures OwnOk(c, AfterFetch(c, t, t.pc.found)) {
      OwnNeverLooks(c, t, AfterFetch(c, t, t.pc.found));
    }
    forall t, status | OwnOk(c, t) && t.pc.Complete? ensures OwnOk(c, AfterComplete(c, t, t.pc.insert, status)) {
      OwnCompletes(c, t, status);
    }
    forall t | OwnOk(c, t) && IsInserting(t.pc) ensures OwnOk(c, AfterInserting(t)) {
      OwnInserts(c, t);
    }
  }

  lemma {:induction false} OwnIsKept(c: Config)
    ensures IsKept(c, s => true, t => OwnOk(c, t))
  {
    var shared: SharedInvariant := s => true;
    var inv: TaskInvariant := t => OwnOk(c, t);
    OwnOutside(c, inv);
    forall s, t | OwnOk(c, t) && IsLookup(t.pc) ensures OwnOk(c, AfterLookup(c, s, t)) {
      LookupTask(c, s, t);
      OwnNeverLooks(c, t, AfterLookup(c, s, t));
    }
    forall s, t | OwnOk(c, t) && IsUserLookup(t.pc) ensures OwnOk(c, AfterUserLookup(c, s, t)) {
      UserLookupTask(c, s, t);
      OwnNeverLooks(c, t, AfterUserLookup(c, s, t));
    }
    forall s, t, o | Enabled(c, s, t) && OwnOk(c, t) && IsFetching(t.pc) ensures OwnOk(c, AfterFetching(c, s, t, o)) {
      FetchingTask(c, s, t, o);
      OwnNeverLooks(c, t, AfterFetching(c, s, t, o));
    }
    KeptByCases(c, shared, inv);
  }

  // ---------------------------------------------------------------------------------------------
  // What is new to the cache

  /**
   * The credentials that a task would add to the cache: those of a store, of a request that comes
   * with credentials that authenticate, or those that a search led to, but not those from the cache.
   */
  function PutForward(c: Config, t: Task): Found {
    if t.job.Store? then Some(t.job.auth)
    else if IsOwnRequest(c, t) then Some(t.job.header.auth)
    else if IsUserRequest(c, t) then (if t.answer.Some? then Some(Used(t)) else None)
    else if HasFound(t) then t.answer.value
    else None
  }

  // ---------------------------------------------------------------------------------------------
  // Every run

  lemma {:induction false} NothingEmptyInRun(c: Config, run: seq<State>, k: nat)
    requires IsRun(c, run) && k < |run|
    ensures NothingEmpty(run[k].shared)
  {
    var shared: SharedInvariant := s => NothingEmpty(s);
    var local: LocalInvariant := (s: Shared, id: nat, t: Task) => InsertsNothingEmpty(t);
    forall id: nat, s, t, o | Enabled(c, s, t) && Allowed(t, o) && shared(s) && local(s, id, t)
      ensures shared(NextShared(c, id, s, t, o)) && local(NextShared(c, id, s, t, o), id, NextTask(c, s, t, o))
    {
      NothingEmptyStep(c, id, s, t, o);
      InsertsNothingEmptyStep(c, s, t, o);
    }
    assert HoldsIn(run[0], shared, local);
    HoldsInRun(c, run, k, shared, local);
  }

  lemma {:induction false} BareInRun(c: Config, run: seq<State>, k: nat, i: nat)
    requires IsRun(c, run) && k < |run| && i < |run[k].tasks| && IsBare(c, run[k].tasks[i])
    ensures HistoryOk(c, run[k].tasks[i])
  {
    var shared: SharedInvariant := s => NothingEmpty(s);
    var inv: TaskInvariant := t => BareOk(c, t);
    forall m: nat | m < |run| ensures shared(run[m].shared) {
      NothingEmptyInRun(c, run, m);
    }
    BareIsKept(c);
    TaskInRun(c, run, k, i, shared, inv);
  }

  lemma {:induction false} UserInRun(c: Config, run: seq<State>, k: nat, i: nat)
    requires IsRun(c, run) && k < |run| && i < |run[k].tasks| && IsUserRequest(c, run[k].tasks[i])
    ensures UserHistoryOk(c, run[k].tasks[i])
  {
    UserIsKept(c);
    TaskInRun(c, run, k, i, s => true, t => UserOk(c, t));
  }

  lemma {:induction false} OwnInRun(c: Config, run: seq<State>, k: nat, i: nat)
    requires IsRun(c, run) && k < |run| && i < |run[k].tasks| && IsOwnRequest(c, run[k].tasks[i])
    ensures OwnHistoryOk(c, run[k].tasks[i])
  {
    OwnIsKept(c);
    TaskInRun(c, run, k, i, s => true, t => OwnOk(c, t));
  }
}
