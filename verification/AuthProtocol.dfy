/**
 * Models the request handling of crates/uv-auth/src/middleware.rs as a step system. Any number of
 * tasks, each a request being handled or an explicit call that stores credentials, take turns; one
 * step is one access to something shared (a cache lookup or write under its lock, an operation on
 * the map of running fetches, taking or releasing the token mutex) or one outside interaction (a
 * request sent, a search for credentials). What the outside answers is part of the step.
 */
module AuthProtocol {
  import opened Wrappers
  import opened Realm
  import opened UrlTrie
  import opened CredentialsCache

  // ---------------------------------------------------------------------------------------------
  // Configuration

  datatype Policy = Auto | Always | Never

  datatype Index = Index(url: Url, root: Url, policy: Policy)

  /**
   * `indexFor` gives the index that covers a URL, `isKnown` tells the URLs of the token store, and
   * `provider` is the Hugging Face token or S3 signer for a URL.
   */
  datatype Config = Config(onlyAuthenticated: bool, dependabot: bool, hasClient: bool,
                           indexFor: Url -> Option<Index>, isKnown: Url -> bool,
                           provider: Url -> Option<Authentication>)

  predicate IsPlatform(a: Authentication) {
    a.Signer? || a.credentials.Bearer?
  }

  ghost predicate ValidConfig(c: Config) {
    forall url :: c.provider(url).Some? ==> IsPlatform(c.provider(url).value)
  }

  function PolicyFor(c: Config, url: Url): Policy {
    if c.indexFor(url).Some? then c.indexFor(url).value.policy else Auto
  }

  predicate MustAuthenticate(c: Config, url: Url) {
    c.onlyAuthenticated || (!c.dependabot && match PolicyFor(c, url)
                            case Auto => c.isKnown(url)
                            case Always => true
                            case Never => false)
  }

  // ---------------------------------------------------------------------------------------------
  // Tasks

  /** The authorization header of a request: none, one of an unrecognised scheme, or credentials. */
  datatype Header = Bare | Foreign | Carries(auth: Authentication)

  /** A request that was sent, and the status of its response unless the transport failed. */
  datatype Send = Send(header: Header, status: Option<nat>)

  datatype FetchUrl = ByIndex(url: Url) | ByRealm(realm: Realm)

  datatype FetchKey = FetchKey(target: FetchUrl, username: Option<string>)

  datatype Job = Handle(url: Url, header: Header) | Store(url: Url, auth: Authentication)

  type Found = Option<Authentication>

  /** Where a task stands. */
  datatype Pc =
    | Begin
      // `handle`, for a request without credentials
    | UrlLookup | Attempt | IndexLookup | RealmLookup
      // `complete_request_with_request_credentials`, for a request without password
    | UserFirst | UserRoot | UserUrl | UserRealm
      // `fetch_credentials`
    | Register | Waiting | Search | SearchStores | Publish(found: Found)
    | TokenLock | TokenRead | TokenPublish(found: Found) | TokenRelease(found: Found) | Fetched(found: Found)
      // `complete_request` and `CredentialsCache::insert`
    | Complete(insert: Found)
    | InsertUser(auth: Authentication) | InsertRealm(auth: Authentication) | InsertUrl(auth: Authentication)
      // the status returned, or an error
    | Ended(result: Option<nat>)

  /**
   * `header` is the header of the request as it stands, `credentials` what is known so far, `named`
   * whether the first attempt had a username. The rest is history: the requests sent, what the first
   * lookup of `handle` found for the URL, what any later lookup found, and the result of a fetch.
   */
  datatype Task = Task(job: Job, pc: Pc, header: Header, credentials: Found, named: bool, response: Option<nat>,
                       sends: seq<Send>, atUrl: Found, elsewhere: Found, answer: Option<Found>)

  /** A request without credentials that authenticate, other than under the policy `Never`. */
  predicate IsUserRequest(c: Config, t: Task) {
    && t.job.Handle? && !PolicyFor(c, t.job.url).Never?
    && t.job.header.Carries? && t.job.header.auth.Plain? && !IsAuthenticated(t.job.header.auth)
  }

  function UsernameFor(t: Task): Option<string> {
    if t.credentials.Some? then UserOf(t.credentials.value) else None
  }

  /** Fetches are shared by index, or by realm where there is no index, and by username. */
  function KeyFor(c: Config, url: Url, username: Option<string>): FetchKey {
    var index := c.indexFor(url);
    FetchKey(if index.Some? then ByIndex(index.value.url) else ByRealm(RealmOf(url)), username)
  }

  function KeyOf(c: Config, t: Task): FetchKey {
    KeyFor(c, t.job.url, UsernameFor(t))
  }

  // ---------------------------------------------------------------------------------------------
  // Shared state

  /** `fetcher` runs the fetch. */
  datatype Slot = Running(fetcher: nat) | Filled(result: Found)

  datatype Token = Uninitialized | Initialized(token: Found)

  datatype Origin = Origin(realm: Realm, auth: Authentication)

  /**
   * From `searches` on, everything is history: the searches begun, the URL of the last search for
   * each key, the calls to the token store, the credentials of explicit store calls, and the
   * credentials that were on a request with a response that is no error.
   */
  datatype Shared = Shared(realms: RealmMap, urls: UrlMap,
                           fetches: map<FetchKey, Slot>, token: Token, holder: Option<nat>,
                           searches: seq<FetchKey>, searchUrls: map<FetchKey, Url>, tokenCalls: nat,
                           stored: set<Origin>, accepted: set<Origin>)

  /** What the outside answers: the status of a response, or the result of a search. */
  datatype Outcome = Outcome(status: Option<nat>, found: Found)

  datatype State = State(shared: Shared, tasks: seq<Task>)

  predicate IsError(status: nat) {
    400 <= status < 600
  }

  predicate IsRefusal(status: nat) {
    status == 401 || status == 403 || status == 404
  }

  // ---------------------------------------------------------------------------------------------
  // Steps of a task

  predicate Enabled(c: Config, s: Shared, t: Task) {
    match t.pc
    case Ended(_) => false
    case Waiting => KeyOf(c, t) in s.fetches && s.fetches[KeyOf(c, t)].Filled?
    case TokenLock => s.holder.None?
    case _ => true
  }

  /** Searches for a username find credentials of that user; the token store yields tokens. */
  predicate Allowed(t: Task, o: Outcome) {
    && (t.pc.SearchStores? && o.found.Some? && UsernameFor(t).Some? ==> UserOf(o.found.value) == UsernameFor(t))
    && (t.pc.TokenRead? && o.found.Some? ==> IsPlatform(o.found.value))
  }

  function Start(c: Config, t: Task): Task {
    match t.job
    case Store(url, auth) => t.(pc := InsertUser(auth))
    case Handle(url, header) =>
      if PolicyFor(c, url).Never? then t.(pc := Attempt)
      else if !header.Carries? || header.auth.Signer? then t.(pc := UrlLookup)
      else if IsAuthenticated(header.auth) then t.(pc := Complete(Some(header.auth)))
      else t.(credentials := Some(header.auth), pc := UserFirst)
  }

  /** Puts credentials on the request and goes on to `pc`. */
  function Authenticate(t: Task, a: Authentication, pc: Pc): Task {
    t.(header := Carries(a), pc := pc)
  }

  /** The request is sent; the response is kept. */
  function Sent(t: Task, status: Option<nat>, pc: Pc): Task {
    t.(sends := t.sends + [Send(t.header, status)], response := status, pc := pc)
  }

  function AfterUrlLookup(t: Task, found: Found): Task {
    if found.None? then t.(pc := Attempt)
    else if IsAuthenticated(found.value) then Authenticate(t, found.value, Complete(None)).(atUrl := found)
    else
      var named := UserOf(found.value).Some?;
      Authenticate(t, found.value, Attempt).(atUrl := found, credentials := found, named := named)
  }

  function AfterAttempt(c: Config, t: Task, status: Option<nat>): Task {
    if MustAuthenticate(c, t.job.url) then t.(pc := IndexLookup)
    else if status.None? || !IsRefusal(status.value) || PolicyFor(c, t.job.url).Never?
    then Sent(t, status, Ended(status))
    else Sent(t, status, IndexLookup)
  }

  /** With what the cache has for index or realm, or else for the URL. */
  function Decided(t: Task, elsewhere: Found): Task {
    var found := if elsewhere.Some? then elsewhere else t.credentials;
    if found.Some? && IsAuthenticated(found.value)
    then Authenticate(t, found.value, Complete(None)).(credentials := found, elsewhere := elsewhere)
    else t.(credentials := found, elsewhere := elsewhere, pc := Register)
  }

  /** Credentials found in the cache are sent, but not inserted again. */
  function IfCached(t: Task, found: Found, miss: Pc): Task {
    if found.Some? then Authenticate(t, found.value, Complete(None)).(elsewhere := found) else t.(pc := miss)
  }

  function AfterFetch(c: Config, t: Task, found: Found): Task {
    if found.Some? then Authenticate(t, found.value, Complete(found))
    else if IsUserRequest(c, t)
    then t.(pc := if c.indexFor(t.job.url).Some? then UserRealm else Complete(t.credentials))
    else if t.credentials.Some? && !t.named then Authenticate(t, t.credentials.value, Complete(None))
    else t.(pc := Ended(t.response))
  }

  function AfterComplete(c: Config, t: Task, insert: Found, status: Option<nat>): Task {
    if insert.Some? && PolicyFor(c, t.job.url).Always? && PasswordOf(insert.value).None? then t.(pc := Ended(None))
    else if insert.Some? && status.Some? && !IsError(status.value) then Sent(t, status, InsertUser(insert.value))
    else Sent(t, status, Ended(status))
  }

  predicate IsLookup(pc: Pc) {
    pc.UrlLookup? || pc.IndexLookup? || pc.RealmLookup?
  }

  predicate IsUserLookup(pc: Pc) {
    pc.UserFirst? || pc.UserRoot? || pc.UserUrl? || pc.UserRealm?
  }

  predicate IsFetching(pc: Pc) {
    || pc.Register? || pc.Waiting? || pc.Search? || pc.SearchStores? || pc.Publish?
    || pc.TokenLock? || pc.TokenRead? || pc.TokenPublish? || pc.TokenRelease?
  }

  predicate IsInserting(pc: Pc) {
    pc.InsertUser? || pc.InsertRealm? || pc.InsertUrl?
  }

  /** The cache lookups of `handle`. */
  function AfterLookup(c: Config, s: Shared, t: Task): Task
    requires IsLookup(t.pc)
  {
    var url := t.job.url;
    match t.pc
    case UrlLookup => AfterUrlLookup(t, AtUrl(s.urls, url, None))
    case IndexLookup =>
      var index := c.indexFor(url);
      var found := if index.Some? then AtUrl(s.urls, index.value.url, UsernameFor(t)) else None;
      if found.Some? then Decided(t, found) else t.(pc := RealmLookup)
    case RealmLookup => Decided(t, InRealm(s.realms, RealmOf(url), UsernameFor(t)))
  }

  /** The cache lookups of `complete_request_with_request_credentials`. */
  function AfterUserLookup(c: Config, s: Shared, t: Task): Task
    requires IsUserLookup(t.pc)
  {
    var url := t.job.url;
    var index := c.indexFor(url);
    match t.pc
    case UserFirst =>
      if index.Some? then IfCached(t, AtUrl(s.urls, index.value.url, UsernameFor(t)), UserRoot)
      else IfCached(t, InRealm(s.realms, RealmOf(url), UsernameFor(t)), UserUrl)
    case UserRoot => IfCached(t, if index.Some? then AtUrl(s.urls, index.value.root, UsernameFor(t)) else None, UserUrl)
    case UserUrl => IfCached(t, AtUrl(s.urls, url, UsernameFor(t)), Register)
    case UserRealm =>
      var found := InRealm(s.realms, RealmOf(url), UsernameFor(t));
      if found.Some? then Authenticate(t, found.value, Complete(found)).(elsewhere := found)
      else t.(pc := Complete(t.credentials))
  }

  /** The steps of `fetch_credentials`, up to its result. */
  function AfterFetching(c: Config, s: Shared, t: Task, o: Outcome): Task
    requires IsFetching(t.pc) && Enabled(c, s, t)
  {
    var url, key := t.job.url, KeyOf(c, t);
    match t.pc
    case Register => t.(pc := if key in s.fetches then Waiting else Search)
    case Waiting => t.(pc := Fetched(s.fetches[key].result), answer := Some(s.fetches[key].result))
    case Search =>
      if c.provider(url).Some? then t.(pc := Publish(c.provider(url)))
      else if c.hasClient && c.isKnown(url) then t.(pc := TokenLock)
      else t.(pc := SearchStores)
    case SearchStores => t.(pc := Publish(o.found))
    case Publish(found) => t.(pc := Fetched(found), answer := Some(found))
    case TokenLock => t.(pc := TokenRead)
    case TokenRead => t.(pc := TokenPublish(if s.token.Initialized? then s.token.token else o.found))
    case TokenPublish(found) => t.(pc := TokenRelease(found))
    case TokenRelease(found) => t.(pc := Fetched(found), answer := Some(found))
  }

  /** The three writes of `CredentialsCache::insert`, which ignores empty credentials. */
  function AfterInserting(t: Task): Task
    requires IsInserting(t.pc)
  {
    match t.pc
    case InsertUser(auth) => t.(pc := if IsEmpty(auth) then Ended(t.response) else InsertRealm(auth))
    case InsertRealm(auth) => t.(pc := InsertUrl(auth))
    case InsertUrl(_) => t.(pc := Ended(t.response))
  }

  /** How a task itself changes in a step. */
  function NextTask(c: Config, s: Shared, t: Task, o: Outcome): Task
    requires Enabled(c, s, t)
  {
    if IsLookup(t.pc) then AfterLookup(c, s, t)
    else if IsUserLookup(t.pc) then AfterUserLookup(c, s, t)
    else if IsFetching(t.pc) then AfterFetching(c, s, t, o)
    else if IsInserting(t.pc) then AfterInserting(t)
    else if t.pc.Begin? then Start(c, t)
    else if t.pc.Attempt? then AfterAttempt(c, t, o.status)
    else if t.pc.Fetched? then AfterFetch(c, t, t.pc.found)
    else AfterComplete(c, t, t.pc.insert, o.status)
  }

  /** Credentials on a request whose response is no error are accepted in the realm of the request. */
  function Accept(s: Shared, t: Task, t': Task): Shared {
    if |t'.sends| > |t.sends| && t.header.Carries? && t'.response.Some? && !IsError(t'.response.value)
    then s.(accepted := s.accepted + {Origin(RealmOf(t.job.url), t.header.auth)})
    else s
  }

  /** What the steps of `fetch_credentials` do to the map of fetches, the mutex and the token. */
  function FetchingShared(c: Config, id: nat, s: Shared, t: Task, o: Outcome): Shared
    requires IsFetching(t.pc)
  {
    var key := KeyOf(c, t);
    match t.pc
    case Register => if key in s.fetches then s else s.(fetches := s.fetches[key := Running(id)])
    case Waiting => s
    case Search => s.(searches := s.searches + [key], searchUrls := s.searchUrls[key := t.job.url])
    case SearchStores => s
    case Publish(found) => s.(fetches := s.fetches[key := Filled(found)])
    case TokenLock => s.(holder := Some(id))
    case TokenRead =>
      if s.token.Initialized? then s else s.(token := Initialized(o.found), tokenCalls := s.tokenCalls + 1)
    case TokenPublish(found) => s.(fetches := s.fetches[key := Filled(found)])
    case TokenRelease(_) => s.(holder := None)
  }

  /** What an insertion does to the cache. */
  function InsertingShared(s: Shared, t: Task): Shared
    requires IsInserting(t.pc)
  {
    var realm := RealmOf(t.job.url);
    match t.pc
    case InsertUser(auth) => s.(realms := WithUser(s.realms, realm, auth))
    case InsertRealm(auth) => s.(realms := WithRealm(s.realms, RealmKey(realm, None), auth))
    case InsertUrl(auth) => s.(urls := s.urls[Components(t.job.url) := auth])
  }

  /** What the step of task `id` does to the shared state. */
  function NextShared(c: Config, id: nat, s: Shared, t: Task, o: Outcome): Shared
    requires Enabled(c, s, t)
  {
    if IsFetching(t.pc) then FetchingShared(c, id, s, t, o)
    else if IsInserting(t.pc) then InsertingShared(s, t)
    else if t.pc.Begin? && t.job.Store? then s.(stored := s.stored + {Origin(RealmOf(t.job.url), t.job.auth)})
    else if t.pc.Attempt? then Accept(s, t, AfterAttempt(c, t, o.status))
    else if t.pc.Complete? then Accept(s, t, AfterComplete(c, t, t.pc.insert, o.status))
    else s
  }

  // ---------------------------------------------------------------------------------------------
  // Runs

  function Next(c: Config, s: State, id: nat, o: Outcome): State
    requires id < |s.tasks| && Enabled(c, s.shared, s.tasks[id])
  {
    State(NextShared(c, id, s.shared, s.tasks[id], o), s.tasks[id := NextTask(c, s.shared, s.tasks[id], o)])
  }

  /** Task `id` can take a step with this outcome. */
  predicate CanStep(c: Config, s: State, id: nat, o: Outcome) {
    id < |s.tasks| && Enabled(c, s.shared, s.tasks[id]) && Allowed(s.tasks[id], o)
  }

  ghost predicate IsStep(c: Config, s: State, s': State) {
    exists id, o :: CanStep(c, s, id, o) && s' == Next(c, s, id, o)
  }

  ghost predicate IsStepAt(c: Config, run: seq<State>, k: nat)
    requires k + 1 < |run|
  {
    IsStep(c, run[k], run[k + 1])
  }

  /** A request comes with its header as parsed, so without a signer; its credentials may be empty. */
  predicate IsFreshTask(t: Task) {
    && t.pc.Begin? && t.credentials.None? && !t.named && t.response.None?
    && t.sends == [] && t.atUrl.None? && t.elsewhere.None? && t.answer.None?
    && (t.job.Handle? ==> t.header == t.job.header && (t.header.Carries? ==> t.header.auth.Plain?))
    && (t.job.Store? ==> t.header.Bare?)
  }

  ghost predicate IsInitial(s: State) {
    && s.shared == Shared(map[], map[], map[], Uninitialized, None, [], map[], 0, {}, {})
    && forall i :: 0 <= i < |s.tasks| ==> IsFreshTask(s.tasks[i])
  }

  ghost predicate IsRun(c: Config, run: seq<State>) {
    && ValidConfig(c) && run != [] && IsInitial(run[0])
    && forall k: nat :: k + 1 < |run| ==> IsStepAt(c, run, k)
  }
}
