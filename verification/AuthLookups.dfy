/**
 * What the lookups of a request come to, in every run, in terms of what the maps of the cache hold
 * at the very moment of each lookup: a hit is remembered and used, and a request searches only if
 * every lookup that goes before a search was made and missed.
 */
module AuthLookups {
  import opened Wrappers
  import opened Realm
  import opened UrlTrie
  import opened CredentialsCache
  import opened AuthProtocol
  import opened AuthRuns
  import opened AuthSends
  import opened AuthHistory
  import opened AuthUsers
  import opened AuthFetches

  // ---------------------------------------------------------------------------------------------
  // What the cache holds

  /** The realm of the URL has these credentials for the user, with a password if there is a user. */
  predicate RealmHolds(s: Shared, url: Url, user: Option<string>, a: Authentication) {
    var key := RealmKey(RealmOf(url), user);
    key in s.realms && s.realms[key] == a && (user.Some? ==> PasswordOf(a).Some?)
  }

  /** The shortest entry above the URL has these credentials, and they are usable for the user. */
  ghost predicate UrlHolds(s: Shared, url: Url, user: Option<string>, a: Authentication) {
    IsShortestPrefix(s.urls, Components(url), Some(a)) && (user.Some? ==> UserOf(a) == user && PasswordOf(a).Some?)
  }

  /** The user that a request came with, or that the first lookup found. */
  function NameOf(c: Config, t: Task): Option<string> {
    if IsUserRequest(c, t) then UserOf(t.job.header.auth)
    else if t.atUrl.Some? then UserOf(t.atUrl.value)
    else None
  }

  /** The cache has these credentials where a task is about to look. */
  ghost predicate Offers(c: Config, s: Shared, t: Task, a: Authentication) {
    var url, user, index := t.job.url, NameOf(c, t), c.indexFor(t.job.url);
    match t.pc
    case UrlLookup => UrlHolds(s, url, None, a)
    case IndexLookup => index.Some? && UrlHolds(s, index.value.url, user, a)
    case RealmLookup => RealmHolds(s, url, user, a)
    case UserFirst => if index.Some? then UrlHolds(s, index.value.url, user, a) else RealmHolds(s, url, user, a)
    case UserRoot => index.Some? && UrlHolds(s, index.value.root, user, a)
    case UserUrl => UrlHolds(s, url, user, a)
    case UserRealm => RealmHolds(s, url, user, a)
    case _ => false
  }

  ghost predicate Finds(c: Config, s: Shared, t: Task, found: Found) {
    forall a :: Offers(c, s, t, a) <==> found == Some(a)
  }

  lemma {:induction false} UrlFinds(s: Shared, url: Url, user: Option<string>)
    ensures forall a :: UrlHolds(s, url, user, a) <==> AtUrl(s.urls, url, user) == Some(a)
  {
    var key := Components(url);
    var found := Shortest(s.urls, key, 1);
    ShortestIsShortest(s.urls, key, 1);
    forall a ensures UrlHolds(s, url, user, a) <==> AtUrl(s.urls, url, user) == Some(a) {
      if IsShortestPrefix(s.urls, key, Some(a)) {
        ShortestPrefixIsUnique(s.urls, key, found, Some(a));
      }
    }
  }

  lemma {:induction false} RealmFinds(s: Shared, url: Url, user: Option<string>)
    ensures forall a :: RealmHolds(s, url, user, a) <==> InRealm(s.realms, RealmOf(url), user) == Some(a)
  {
  }

  predicate Looks(pc: Pc) {
    IsLookup(pc) || IsUserLookup(pc)
  }

  /** A task stands at a lookup, and has the username that it looks for. */
  predicate IsReady(c: Config, t: Task) {
    Looks(t.pc) && if t.pc.UrlLookup? then t.atUrl.None? else UsernameFor(t) == NameOf(c, t)
  }

  /** Where a lookup leads: a hit is remembered, and a miss goes on to the next lookup. */
  predicate LeadsTo(c: Config, t: Task, found: Found, t': Task) {
    match t.pc
    case UrlLookup => t'.atUrl == found && t'.elsewhere == t.elsewhere && (t'.pc.Attempt? || t'.pc.Complete?)
    case IndexLookup =>
      && t'.atUrl == t.atUrl && (found.Some? ==> t'.elsewhere == found && (t'.pc.Register? || t'.pc.Complete?))
      && (found.None? ==> t'.elsewhere == t.elsewhere && t'.pc.RealmLookup?)
    case RealmLookup => t'.atUrl == t.atUrl && t'.elsewhere == found && (t'.pc.Register? || t'.pc.Complete?)
    case UserRealm => t'.pc.Complete? && t'.elsewhere == if found.Some? then found else t.elsewhere
    case _ =>
      if found.Some? then t'.pc.Complete? && t'.elsewhere == found
      else t'.elsewhere == t.elsewhere && t'.pc == (if t.pc.UserUrl? then Register
                                                    else if t.pc.UserFirst? && c.indexFor(t.job.url).Some? then UserRoot
                                                    else UserUrl)
  }

  lemma {:induction false} LookStep(c: Config, s: Shared, t: Task) returns (found: Found)
    requires IsLookup(t.pc) && IsReady(c, t)
    ensures Finds(c, s, t, found) && LeadsTo(c, t, found, AfterLookup(c, s, t))
  {
    var url, user, index := t.job.url, UsernameFor(t), c.indexFor(t.job.url);
    if t.pc.UrlLookup? {
      UrlFinds(s, url, None);
      found := AtUrl(s.urls, url, None);
    } else if t.pc.RealmLookup? {
      RealmFinds(s, url, user);
      found := InRealm(s.realms, RealmOf(url), user);
    } else if index.Some? {
      UrlFinds(s, index.value.url, user);
      found := AtUrl(s.urls, index.value.url, user);
    } else {
      found := None;
    }
  }

  lemma {:induction false} UserLookStep(c: Config, s: Shared, t: Task) returns (found: Found)
    requires IsUserLookup(t.pc) && IsReady(c, t)
    ensures Finds(c, s, t, found) && LeadsTo(c, t, found, AfterUserLookup(c, s, t))
  {
    var url, user, index := t.job.url, UsernameFor(t), c.indexFor(t.job.url);
    RealmFinds(s, url, user);
    found := InRealm(s.realms, RealmOf(url), user);
    if t.pc.UserUrl? {
      UrlFinds(s, url, user);
      found := AtUrl(s.urls, url, user);
    } else if t.pc.UserRoot? {
      if index.Some? {
        UrlFinds(s, index.value.root, user);
      }
      found := if index.Some? then AtUrl(s.urls, index.value.root, user) else None;
    } else if t.pc.UserFirst? && index.Some? {
      UrlFinds(s, index.value.url, user);
      found := AtUrl(s.urls, index.value.url, user);
    }
  }

  // ---------------------------------------------------------------------------------------------
  // Lookups in a run

  /** Task `i` makes the lookup in the step from state `x`. */
  predicate LooksAt(run: seq<State>, x: nat, i: nat, pc: Pc) {
    && x + 1 < |run| && i < |run[x].tasks| && i < |run[x + 1].tasks|
    && run[x].tasks[i].pc == pc && run[x + 1].tasks[i].pc != pc
  }

  /** Before state `m`, task `i` has made the lookup, and the cache had then what is given here. */
  ghost predicate Looked(c: Config, run: seq<State>, m: nat, i: nat, pc: Pc, found: Found) {
    exists x: nat :: x < m && LooksAt(run, x, i, pc) && Finds(c, run[x].shared, run[x].tasks[i], found)
  }

  /** The lookups that a task has made, each with what the cache had then. */
  type Lookups = (Pc, Found) -> bool

  ghost function LookupsOf(c: Config, run: seq<State>, m: nat, i: nat): Lookups {
    (pc: Pc, found: Found) => Looked(c, run, m, i, pc, found)
  }

  /** The lookups for index and realm found this. */
  ghost predicate FoundElsewhere(looked: Lookups, found: Found) {
    (found.Some? && looked(IndexLookup, found)) || (looked(IndexLookup, None) && looked(RealmLookup, found))
  }

  predicate IsBeforeUrl(pc: Pc) {
    pc.Begin? || pc.UrlLookup?
  }

  /**
   * What a request without credentials knows is what the cache had when it looked. It looks for its
   * URL first unless the policy is `Never`.
   */
  ghost predicate BareKnows(c: Config, t: Task, looked: Lookups) {
    && (if HasPolicy(c, t.job.url, Never) then t.atUrl.None?
        else !IsBeforeUrl(t.pc) ==> looked(UrlLookup, t.atUrl))
    && (t.pc.RealmLookup? ==> looked(IndexLookup, None))
    && (IsFetching(t.pc) || t.answer.Some? || t.elsewhere.Some? ==> FoundElsewhere(looked, t.elsewhere))
  }

  /** The lookups for a username before the search, up to the one for the URL, all missed. */
  ghost predicate MissedIndex(looked: Lookups, hasIndex: bool) {
    looked(UserFirst, None) && (hasIndex ==> looked(UserRoot, None))
  }

  ghost predicate MissedAll(looked: Lookups, hasIndex: bool) {
    MissedIndex(looked, hasIndex) && looked(UserUrl, None)
  }

  /** The first of these lookups that did not miss found this. */
  ghost predicate HasHit(looked: Lookups, hasIndex: bool, found: Found) {
    && found.Some?
    && (|| looked(UserFirst, found)
        || (hasIndex && looked(UserFirst, None) && looked(UserRoot, found))
        || (MissedIndex(looked, hasIndex) && looked(UserUrl, found)))
  }

  /** What a request with a username knows is what the cache had when it looked. */
  ghost predicate UserKnows(t: Task, hasIndex: bool, looked: Lookups) {
    if t.pc.Begin? || t.pc.UserFirst? then true
    else if t.pc.UserRoot? then hasIndex && looked(UserFirst, None)
    else if t.pc.UserUrl? then MissedIndex(looked, hasIndex)
    else if IsFetching(t.pc) || t.pc.Fetched? then MissedAll(looked, hasIndex)
    else if t.pc.UserRealm? then hasIndex && MissedAll(looked, hasIndex)
    else if t.answer.None? then HasHit(looked, hasIndex, t.elsewhere)
    else
      && MissedAll(looked, hasIndex)
      && (t.answer == Some(None) ==> if hasIndex then looked(UserRealm, t.elsewhere) else t.elsewhere.None?)
  }

  predicate HasIndex(c: Config, t: Task) {
    c.indexFor(t.job.url).Some?
  }

  /** Everything looked up before is still known, and so is what one more lookup has found. */
  ghost predicate Grows(looked: Lookups, looked': Lookups) {
    forall pc, found :: looked(pc, found) ==> looked'(pc, found)
  }

  lemma {:induction false} LookupsGrow(c: Config, run: seq<State>, k: nat, m: nat, i: nat)
    requires k <= m
    ensures Grows(LookupsOf(c, run, k, i), LookupsOf(c, run, m, i))
  {
    forall pc, found | Looked(c, run, k, i, pc, found) ensures Looked(c, run, m, i, pc, found) {
      var x: nat :| x < k && LooksAt(run, x, i, pc) && Finds(c, run[x].shared, run[x].tasks[i], found);
    }
  }

  /** The step that a task makes at a lookup. */
  lemma {:induction false} LooksNow(c: Config, run: seq<State>, m: nat, i: nat, o: Outcome) returns (found: Found)
    requires m + 1 < |run| && CanStep(c, run[m], i, o) && run[m + 1] == Next(c, run[m], i, o)
    requires IsReady(c, run[m].tasks[i])
    ensures LeadsTo(c, run[m].tasks[i], found, run[m + 1].tasks[i])
    ensures LookupsOf(c, run, m + 1, i)(run[m].tasks[i].pc, found)
  {
    if IsLookup(run[m].tasks[i].pc) {
      found := LookStep(c, run[m].shared, run[m].tasks[i]);
    } else {
      found := UserLookStep(c, run[m].shared, run[m].tasks[i]);
    }
    assert LooksAt(run, m, i, run[m].tasks[i].pc);
    assert Looked(c, run, m + 1, i, run[m].tasks[i].pc, found);
  }

  // ---------------------------------------------------------------------------------------------
  // Requests without credentials

  lemma {:induction false} BareIsReady(c: Config, t: Task)
    requires IsBare(c, t) && HistoryOk(c, t) && IsLookup(t.pc)
    ensures IsReady(c, t) && t.elsewhere.None? && t.answer.None?
    ensures HasPolicy(c, t.job.url, Never) ==> !t.pc.UrlLookup?
  {
  }

  lemma {:induction false} BareHasLooked(c: Config, t: Task, found: Found, t': Task, looked: Lookups, looked': Lookups)
    requires IsLookup(t.pc) && t.elsewhere.None? && t.answer.None? && LeadsTo(c, t, found, t') && t'.answer == t.answer
    requires t'.job == t.job && (HasPolicy(c, t.job.url, Never) ==> !t.pc.UrlLookup?)
    requires BareKnows(c, t, looked) && Grows(looked, looked') && looked'(t.pc, found)
    ensures BareKnows(c, t', looked')
  {
  }

  /** A step that is no lookup finds nothing. */
  lemma {:induction false} BareGoesOn(c: Config, s: Shared, t: Task, o: Outcome, looked: Lookups, looked': Lookups)
    requires Enabled(c, s, t) && IsBare(c, t) && !Looks(t.pc) && BareKnows(c, t, looked) && Grows(looked, looked')
    ensures BareKnows(c, NextTask(c, s, t, o), looked')
  {
    if IsFetching(t.pc) {
      FetchingTask(c, s, t, o);
    } else {
      BareOtherStep(c, s, t, o);
    }
  }

  lemma {:induction false} BareOtherStep(c: Config, s: Shared, t: Task, o: Outcome)
    requires Enabled(c, s, t) && IsBare(c, t) && !Looks(t.pc) && !IsFetching(t.pc)
    ensures var t' := NextTask(c, s, t, o);
      && t'.atUrl == t.atUrl && t'.elsewhere == t.elsewhere && t'.answer == t.answer
      && t'.job == t.job && !t'.pc.RealmLookup? && !IsFetching(t'.pc)
      && (IsBeforeUrl(t.pc) ==> IsBeforeUrl(t'.pc) || HasPolicy(c, t.job.url, Never))
  {
  }

  lemma {:induction false} BareKnowsNext(c: Config, run: seq<State>, m: nat, i: nat, o: Outcome)
    requires m + 1 < |run| && CanStep(c, run[m], i, o) && run[m + 1] == Next(c, run[m], i, o)
    requires IsBare(c, run[m].tasks[i]) && HistoryOk(c, run[m].tasks[i]) && !IsUserLookup(run[m].tasks[i].pc)
    requires BareKnows(c, run[m].tasks[i], LookupsOf(c, run, m, i))
    ensures BareKnows(c, run[m + 1].tasks[i], LookupsOf(c, run, m + 1, i))
  {
    var t, looked, looked' := run[m].tasks[i], LookupsOf(c, run, m, i), LookupsOf(c, run, m + 1, i);
    LookupsGrow(c, run, m, m + 1, i);
    if IsLookup(t.pc) {
      BareIsReady(c, t);
      LookupTask(c, run[m].shared, t);
      var found := LooksNow(c, run, m, i, o);
      BareHasLooked(c, t, found, run[m + 1].tasks[i], looked, looked');
    } else {
      BareGoesOn(c, run[m].shared, t, o, looked, looked');
    }
  }

  lemma {:induction false} KnowsLater(c: Config, run: seq<State>, m: nat, i: nat, t: Task)
    ensures BareKnows(c, t, LookupsOf(c, run, m, i)) ==> BareKnows(c, t, LookupsOf(c, run, m + 1, i))
    ensures UserKnows(t, HasIndex(c, t), LookupsOf(c, run, m, i)) ==>
      UserKnows(t, HasIndex(c, t), LookupsOf(c, run, m + 1, i))
  {
    LookupsGrow(c, run, m, m + 1, i);
  }

  /** In every run, what a request without credentials knows is what the cache had at its own lookups. */
  lemma {:induction false} BareKnowsInRun(c: Config, run: seq<State>, m: nat, i: nat)
    requires IsRun(c, run) && m < |run| && i < |run[m].tasks| && IsBare(c, run[m].tasks[i])
    ensures BareKnows(c, run[m].tasks[i], LookupsOf(c, run, m, i))
  {
    JobsAreFixed(c, run, m);
    if m == 0 {
      assert IsFreshTask(run[0].tasks[i]);
    } else {
      JobsAreFixed(c, run, m - 1);
      BareKnowsInRun(c, run, m - 1, i);
      var id, o := StepOf(c, run, m - 1);
      if id == i {
        BareInRun(c, run, m - 1, i);
        EveryTaskSendsWell(c, run, m - 1, i);
        BareKnowsNext(c, run, m - 1, i, o);
      } else {
        KnowsLater(c, run, m - 1, i, run[m].tasks[i]);
      }
    }
  }

  // ---------------------------------------------------------------------------------------------
  // Requests with a username only

  /** Where the steps of such a request lead that are no lookups. */
  predicate UserMayGo(c: Config, t: Task, t': Task) {
    && t'.elsewhere == t.elsewhere && t'.job == t.job
    && (t.pc.Begin? ==> t'.pc.UserFirst?)
    && (IsFetching(t.pc) ==> IsFetching(t'.pc) || t'.pc.Fetched?)
    && (t.pc.Fetched? ==>
         && t'.answer == t.answer && (t'.pc.UserRealm? ==> HasIndex(c, t))
         && (t'.pc.UserRealm? || (t'.pc.Complete? && (t.answer == Some(None) ==> !HasIndex(c, t)))))
    && (t.pc.Complete? || IsInserting(t.pc) ==> t'.answer == t.answer && (IsInserting(t'.pc) || t'.pc.Ended?))
  }

  lemma {:induction false} UserFetchingStep(c: Config, s: Shared, t: Task, o: Outcome)
    requires Enabled(c, s, t) && IsFetching(t.pc)
    ensures UserMayGo(c, t, NextTask(c, s, t, o))
  {
    FetchingTask(c, s, t, o);
  }

  lemma {:induction false} UserOtherStep(c: Config, s: Shared, t: Task, o: Outcome)
    requires Enabled(c, s, t) && IsUserRequest(c, t) && UserHistoryOk(c, t) && !Looks(t.pc) && !IsFetching(t.pc)
    ensures UserMayGo(c, t, NextTask(c, s, t, o))
  {
  }

  lemma {:induction false} UserGoesOn(c: Config, t: Task, t': Task, looked: Lookups, looked': Lookups)
    requires IsUserRequest(c, t) && UserHistoryOk(c, t) && !Looks(t.pc) && !t.pc.Ended? && UserMayGo(c, t, t')
    requires UserKnows(t, HasIndex(c, t), looked) && Grows(looked, looked')
    ensures UserKnows(t', HasIndex(c, t'), looked')
  {
  }

  lemma {:induction false} UserIsReady(c: Config, t: Task)
    requires IsUserRequest(c, t) && UserHistoryOk(c, t) && Looks(t.pc)
    ensures IsUserLookup(t.pc) && IsReady(c, t) && t.elsewhere.None?
    ensures t.answer == if t.pc.UserRealm? then Some(None) else None
  {
  }

  lemma {:induction false} UserHasLooked(c: Config, t: Task, found: Found, t': Task, looked: Lookups, looked': Lookups)
    requires IsUserLookup(t.pc) && t.elsewhere.None? && t'.job == t.job && t'.answer == t.answer
    requires t.answer == (if t.pc.UserRealm? then Some(None) else None) && LeadsTo(c, t, found, t')
    requires UserKnows(t, HasIndex(c, t), looked) && Grows(looked, looked') && looked'(t.pc, found)
    ensures UserKnows(t', HasIndex(c, t'), looked')
  {
  }

  lemma {:induction false} UserKnowsNext(c: Config, run: seq<State>, m: nat, i: nat, o: Outcome)
    requires m + 1 < |run| && CanStep(c, run[m], i, o) && run[m + 1] == Next(c, run[m], i, o)
    requires IsUserRequest(c, run[m].tasks[i]) && UserHistoryOk(c, run[m].tasks[i])
    requires UserKnows(run[m].tasks[i], HasIndex(c, run[m].tasks[i]), LookupsOf(c, run, m, i))
    ensures UserKnows(run[m + 1].tasks[i], HasIndex(c, run[m + 1].tasks[i]), LookupsOf(c, run, m + 1, i))
  {
    var t, t', looked, looked' :=
      run[m].tasks[i], run[m + 1].tasks[i], LookupsOf(c, run, m, i), LookupsOf(c, run, m + 1, i);
    LookupsGrow(c, run, m, m + 1, i);
    if Looks(t.pc) {
      UserIsReady(c, t);
      UserLookupTask(c, run[m].shared, t);
      var found := LooksNow(c, run, m, i, o);
      UserHasLooked(c, t, found, t', looked, looked');
    } else {
      if IsFetching(t.pc) {
        UserFetchingStep(c, run[m].shared, t, o);
      } else {
        UserOtherStep(c, run[m].shared, t, o);
      }
      UserGoesOn(c, t, t', looked, looked');
    }
  }

  /** In every run, what a request with a username knows is what the cache had at its own lookups. */
  lemma {:induction false} UserKnowsInRun(c: Config, run: seq<State>, m: nat, i: nat)
    requires IsRun(c, run) && m < |run| && i < |run[m].tasks| && IsUserRequest(c, run[m].tasks[i])
    ensures UserKnows(run[m].tasks[i], HasIndex(c, run[m].tasks[i]), LookupsOf(c, run, m, i))
  {
    JobsAreFixed(c, run, m);
    if m == 0 {
      assert IsFreshTask(run[0].tasks[i]);
    } else {
      JobsAreFixed(c, run, m - 1);
      UserKnowsInRun(c, run, m - 1, i);
      var id, o := StepOf(c, run, m - 1);
      if id == i {
        UserInRun(c, run, m - 1, i);
        UserKnowsNext(c, run, m - 1, i, o);
      } else {
        KnowsLater(c, run, m - 1, i, run[m].tasks[i]);
      }
    }
  }

  // ---------------------------------------------------------------------------------------------
  // No lookup is made twice

  /** Every step of a task takes it further, to a smaller rank. */
  lemma {:induction false} RankFalls(c: Config, run: seq<State>, k: nat, m: nat, i: nat)
    requires IsRun(c, run) && k <= m < |run| && i < |run[0].tasks|
    ensures |run[k].tasks| == |run[m].tasks| == |run[0].tasks|
    ensures Rank(run[m].tasks[i].pc) <= Rank(run[k].tasks[i].pc)
  {
    JobsAreFixed(c, run, k);
    JobsAreFixed(c, run, m);
    if k < m {
      RankFalls(c, run, k, m - 1, i);
      var id, o := StepOf(c, run, m - 1);
      RankDecreases(c, run[m - 1].shared, run[m - 1].tasks[id], o);
    }
  }

  lemma {:induction false} RankAfterLook(c: Config, run: seq<State>, x: nat, m: nat, i: nat, pc: Pc)
    requires IsRun(c, run) && x < m < |run| && LooksAt(run, x, i, pc)
    ensures |run[m].tasks| == |run[x].tasks| && Rank(run[m].tasks[i].pc) < Rank(pc)
  {
    JobsAreFixed(c, run, x);
    var id, o := StepOf(c, run, x);
    RankDecreases(c, run[x].shared, run[x].tasks[id], o);
    RankFalls(c, run, x + 1, m, i);
  }

  lemma {:induction false} LooksOnce(c: Config, run: seq<State>, x: nat, y: nat, i: nat, pc: Pc)
    requires IsRun(c, run) && LooksAt(run, x, i, pc) && LooksAt(run, y, i, pc)
    ensures x == y
  {
    if x < y {
      RankAfterLook(c, run, x, y, i, pc);
    } else if y < x {
      RankAfterLook(c, run, y, x, i, pc);
    }
  }

  /** So a task has made each lookup once, and found one thing there. */
  ghost predicate IsDefinite(looked: Lookups) {
    forall pc, found, found' :: looked(pc, found) && looked(pc, found') ==> found == found'
  }

  lemma {:induction false} LookupsAreDefinite(c: Config, run: seq<State>, m: nat, i: nat)
    requires IsRun(c, run)
    ensures IsDefinite(LookupsOf(c, run, m, i))
  {
    forall pc, found, found' | Looked(c, run, m, i, pc, found) && Looked(c, run, m, i, pc, found')
      ensures found == found'
    {
      var x: nat :| x < m && LooksAt(run, x, i, pc) && Finds(c, run[x].shared, run[x].tasks[i], found);
      var y: nat :| y < m && LooksAt(run, y, i, pc) && Finds(c, run[y].shared, run[y].tasks[i], found');
      LooksOnce(c, run, x, y, i, pc);
      FindsOnce(c, run[x].shared, run[x].tasks[i], found, found');
    }
  }

  lemma {:induction false} FindsOnce(c: Config, s: Shared, t: Task, found: Found, found': Found)
    requires Finds(c, s, t, found) && Finds(c, s, t, found')
    ensures found == found'
  {
    if found.Some? {
      assert Offers(c, s, t, found.value);
    } else if found'.Some? {
      assert Offers(c, s, t, found'.value);
    }
  }

  /** What the cache offers in the step that makes a lookup is what was found there. */
  lemma {:induction false} OfferIsFound(c: Config, run: seq<State>, x: nat, m: nat, i: nat, a: Authentication)
    requires IsRun(c, run) && x < m < |run| && i < |run[x].tasks| && IsReady(c, run[x].tasks[i])
    requires LooksAt(run, x, i, run[x].tasks[i].pc) && Offers(c, run[x].shared, run[x].tasks[i], a)
    ensures LookupsOf(c, run, m, i)(run[x].tasks[i].pc, Some(a))
  {
    var id, o := StepOf(c, run, x);
    var found := LooksNow(c, run, x, i, o);
    LookupsGrow(c, run, x + 1, m, i);
    var pc := run[x].tasks[i].pc;
    assert Looked(c, run, x + 1, i, pc, found);
    var y: nat :| y < x + 1 && LooksAt(run, y, i, pc) && Finds(c, run[y].shared, run[y].tasks[i], found);
    LooksOnce(c, run, x, y, i, pc);
  }

  // ---------------------------------------------------------------------------------------------
  // Hits are used

  /** The request was sent once, with these credentials, if it has ended; it has not searched. */
  predicate WasSentWith(t: Task, a: Authentication) {
    t.answer.None? && (t.pc.Ended? ==> |t.sends| == 1 && t.sends[0].header == Carries(a))
  }

  /**
   * What the cache has for the username of a request when it looks is what it is sent with, without
   * a search: the entry for the index URL or, without an index, for the realm; if there is none, the
   * entry for the root of the index; and if there is none, the entry for the URL.
   */
  lemma {:induction false} NamedHitIsUsed(c: Config, run: seq<State>, x: nat, m: nat, i: nat, a: Authentication)
    requires IsRun(c, run) && x < m < |run| && i < |run[x].tasks| && IsUserRequest(c, run[x].tasks[i])
    requires run[x].tasks[i].pc.UserFirst? || run[x].tasks[i].pc.UserRoot? || run[x].tasks[i].pc.UserUrl?
    requires LooksAt(run, x, i, run[x].tasks[i].pc) && Offers(c, run[x].shared, run[x].tasks[i], a)
    ensures |run[m].tasks| == |run[x].tasks| && run[m].tasks[i].elsewhere == Some(a) && WasSentWith(run[m].tasks[i], a)
  {
    var pc, looked := run[x].tasks[i].pc, LookupsOf(c, run, m, i);
    JobsAreFixed(c, run, x);
    RankAfterLook(c, run, x, m, i, pc);
    JobsAreFixed(c, run, m);
    UserKnowsInRun(c, run, x, i);
    LookupsGrow(c, run, x, m, i);
    UserInRun(c, run, x, i);
    UserIsReady(c, run[x].tasks[i]);
    OfferIsFound(c, run, x, m, i, a);
    UserKnowsInRun(c, run, m, i);
    UserInRun(c, run, m, i);
    LookupsAreDefinite(c, run, m, i);
    UserHitIsKnown(c, run[x].tasks[i], run[m].tasks[i], looked, a);
  }

  lemma {:induction false} UserHitIsKnown(c: Config, t: Task, t': Task, looked: Lookups, a: Authentication)
    requires IsUserRequest(c, t) && t'.job == t.job && (t.pc.UserFirst? || t.pc.UserRoot? || t.pc.UserUrl?)
    requires UserKnows(t, HasIndex(c, t), looked) && UserKnows(t', HasIndex(c, t'), looked) && IsDefinite(looked)
    requires looked(t.pc, Some(a)) && UserHistoryOk(c, t') && Rank(t'.pc) < Rank(t.pc)
    ensures t'.elsewhere == Some(a) && WasSentWith(t', a)
  {
    assert forall found :: looked(t.pc, found) ==> found == Some(a);
    assert !t.pc.UserFirst? ==> forall found :: looked(UserFirst, found) ==> found == None;
    assert t.pc.UserUrl? && HasIndex(c, t) ==> forall found :: looked(UserRoot, found) ==> found == None;
  }

  /** Where a named request has not looked yet. */
  predicate IsBeforeFirst(pc: Pc) {
    pc.Begin? || pc.UserFirst?
  }

  function OwnKey(t: Task): RealmKey
    requires t.job.Handle? && t.job.header.Carries?
  {
    RealmKey(RealmOf(t.job.url), UserOf(t.job.header.auth))
  }

  /** The realm map has a password for the user that the request names. */
  predicate HasPassword(s: Shared, t: Task)
    requires t.job.Handle? && t.job.header.Carries?
  {
    OwnKey(t).username.Some? && OwnKey(t) in s.realms && PasswordOf(s.realms[OwnKey(t)]).Some?
  }

  lemma {:induction false} FirstLookWas(c: Config, run: seq<State>, m: nat, i: nat) returns (x: nat)
    requires IsRun(c, run) && m < |run| && i < |run[m].tasks|
    requires IsUserRequest(c, run[m].tasks[i]) && !IsBeforeFirst(run[m].tasks[i].pc)
    ensures x < m && LooksAt(run, x, i, UserFirst)
  {
    UserKnowsInRun(c, run, m, i);
    var found :| LookupsOf(c, run, m, i)(UserFirst, found);
    assert Looked(c, run, m, i, UserFirst, found);
    x :| x < m && LooksAt(run, x, i, UserFirst) && Finds(c, run[x].shared, run[x].tasks[i], found);
  }

  /**
   * Once the realm of a URL without an index has a password for a user, every request for it that
   * names the user and has not looked yet is sent once, with the password that is there when it
   * looks, and never searches, whatever other tasks do.
   */
  lemma {:induction false} NamedUsesRealm(c: Config, run: seq<State>, k: nat, m: nat, i: nat)
    requires IsRun(c, run) && k <= m < |run| && i < |run[k].tasks|
    requires IsUserRequest(c, run[k].tasks[i]) && !HasIndex(c, run[k].tasks[i]) && IsBeforeFirst(run[k].tasks[i].pc)
    requires HasPassword(run[k].shared, run[k].tasks[i])
    ensures |run[m].tasks| == |run[k].tasks| && run[m].tasks[i].job == run[k].tasks[i].job
    ensures var t, key := run[m].tasks[i], OwnKey(run[k].tasks[i]);
      IsBeforeFirst(t.pc) ||
      exists x: nat ::
        && k <= x < m && key in run[x].shared.realms && t.elsewhere == Some(run[x].shared.realms[key])
        && UserOf(t.elsewhere.value) == key.username && PasswordOf(t.elsewhere.value).Some?
        && WasSentWith(t, t.elsewhere.value)
  {
    JobsAreFixed(c, run, k);
    JobsAreFixed(c, run, m);
    var key := OwnKey(run[k].tasks[i]);
    if !IsBeforeFirst(run[m].tasks[i].pc) {
      var x := FirstLookWas(c, run, m, i);
      if x < k {
        RankAfterLook(c, run, x, k, i, UserFirst);
      }
      JobsAreFixed(c, run, x);
      PasswordsStay(c, run, k, x);
      EntriesAreFiled(c, run, x, key);
      assert RealmHolds(run[x].shared, run[x].tasks[i].job.url, key.username, run[x].shared.realms[key]);
      NamedHitIsUsed(c, run, x, m, i, run[x].shared.realms[key]);
    }
  }

  /** A request with a username searches only if all three lookups before were made and missed. */
  lemma {:induction false} NamedSearchesOnlyAfterMisses(c: Config, run: seq<State>, m: nat, i: nat)
    requires IsRun(c, run) && m < |run| && i < |run[m].tasks| && IsUserRequest(c, run[m].tasks[i])
    requires IsFetching(run[m].tasks[i].pc) || run[m].tasks[i].answer.Some?
    ensures Looked(c, run, m, i, UserFirst, None) && Looked(c, run, m, i, UserUrl, None)
    ensures c.indexFor(run[m].tasks[i].job.url).Some? ==> Looked(c, run, m, i, UserRoot, None)
  {
    UserKnowsInRun(c, run, m, i);
    UserInRun(c, run, m, i);
    assert MissedAll(LookupsOf(c, run, m, i), HasIndex(c, run[m].tasks[i]));
  }

  /** Only a request for an index falls back to its realm, and only after its search failed. */
  lemma {:induction false} NamedFallsBackToRealm(c: Config, run: seq<State>, m: nat, i: nat)
    requires IsRun(c, run) && m < |run| && i < |run[m].tasks| && IsUserRequest(c, run[m].tasks[i])
    requires run[m].tasks[i].pc.Ended? && run[m].tasks[i].answer == Some(None)
    ensures var t := run[m].tasks[i];
      if c.indexFor(t.job.url).Some? then Looked(c, run, m, i, UserRealm, t.elsewhere) else t.elsewhere.None?
  {
    UserKnowsInRun(c, run, m, i);
    if HasIndex(c, run[m].tasks[i]) {
      assert LookupsOf(c, run, m, i)(UserRealm, run[m].tasks[i].elsewhere);
    }
  }

  // ---------------------------------------------------------------------------------------------
  // The same without a username

  /** What a request without credentials has found, it does not forget. */
  lemma {:induction false} BareRemembers(c: Config, run: seq<State>, k: nat, m: nat, i: nat)
    requires IsRun(c, run) && k <= m < |run| && i < |run[k].tasks| && IsBare(c, run[k].tasks[i])
    ensures |run[m].tasks| == |run[k].tasks| && run[m].tasks[i].job == run[k].tasks[i].job
    ensures Rank(run[k].tasks[i].pc) < Rank(UrlLookup) ==> run[m].tasks[i].atUrl == run[k].tasks[i].atUrl
    ensures Rank(run[k].tasks[i].pc) < Rank(RealmLookup) ==> run[m].tasks[i].elsewhere == run[k].tasks[i].elsewhere
  {
    JobsAreFixed(c, run, k);
    JobsAreFixed(c, run, m);
    if k < m {
      BareRemembers(c, run, k, m - 1, i);
      RankFalls(c, run, k, m - 1, i);
      var id, o := StepOf(c, run, m - 1);
      if id == i {
        BareInRun(c, run, m - 1, i);
        EveryTaskSendsWell(c, run, m - 1, i);
        BareKeeps(c, run[m - 1].shared, run[m - 1].tasks[i], o);
      }
    }
  }

  lemma {:induction false} BareKeeps(c: Config, s: Shared, t: Task, o: Outcome)
    requires Enabled(c, s, t) && IsBare(c, t) && HistoryOk(c, t) && !IsUserLookup(t.pc)
    ensures var t' := NextTask(c, s, t, o);
      && (Rank(t.pc) < Rank(UrlLookup) ==> t'.atUrl == t.atUrl)
      && (Rank(t.pc) < Rank(RealmLookup) ==> t'.elsewhere == t.elsewhere)
  {
    if IsLookup(t.pc) {
      BareIsReady(c, t);
      var found := LookStep(c, s, t);
    } else if IsFetching(t.pc) {
      FetchingTask(c, s, t, o);
    } else {
      BareOtherStep(c, s, t, o);
    }
  }

  lemma {:induction false} BareHitIsRemembered(c: Config, run: seq<State>, x: nat, i: nat, a: Authentication)
    requires IsRun(c, run) && x + 1 < |run| && i < |run[x].tasks| && IsBare(c, run[x].tasks[i])
    requires IsLookup(run[x].tasks[i].pc) && LooksAt(run, x, i, run[x].tasks[i].pc)
    requires Offers(c, run[x].shared, run[x].tasks[i], a)
    ensures IsBare(c, run[x + 1].tasks[i]) && |run[x + 1].tasks| == |run[x].tasks|
    ensures var t, t' := run[x].tasks[i], run[x + 1].tasks[i];
      if t.pc.UrlLookup? then t'.atUrl == Some(a) && Rank(t'.pc) < Rank(UrlLookup)
      else t'.elsewhere == Some(a) && IsMere(t'.atUrl) && Rank(t'.pc) < Rank(RealmLookup)
  {
    var id, o := StepOf(c, run, x);
    BareInRun(c, run, x, i);
    BareIsReady(c, run[x].tasks[i]);
    var found := LookStep(c, run[x].shared, run[x].tasks[i]);
    assert found == Some(a);
    JobIsFixed(c, run[x].shared, run[x].tasks[i], o);
  }

  /**
   * What the cache has for the URL, the index or the realm when a request without credentials looks
   * there is remembered, and if it authenticates, the last thing sent carries it, without a search.
   */
  lemma {:induction false} BareHitIsUsed(c: Config, run: seq<State>, x: nat, m: nat, i: nat, a: Authentication)
    requires IsRun(c, run) && x < m < |run| && i < |run[x].tasks| && IsBare(c, run[x].tasks[i])
    requires IsLookup(run[x].tasks[i].pc) && LooksAt(run, x, i, run[x].tasks[i].pc)
    requires Offers(c, run[x].shared, run[x].tasks[i], a)
    ensures |run[m].tasks| == |run[x].tasks|
    ensures (if run[x].tasks[i].pc.UrlLookup? then run[m].tasks[i].atUrl else run[m].tasks[i].elsewhere) == Some(a)
    ensures var t := run[m].tasks[i];
      IsAuthenticated(a) ==>
        t.answer.None? && (t.pc.Ended? ==> t.sends != [] && t.sends[|t.sends| - 1].header == Carries(a))
  {
    BareHitIsRemembered(c, run, x, i, a);
    BareRemembers(c, run, x + 1, m, i);
    BareInRun(c, run, m, i);
    if IsAuthenticated(a) {
      BareHitIsSent(c, run[m].tasks[i], a);
    }
  }

  lemma {:induction false} BareHitIsSent(c: Config, t: Task, a: Authentication)
    requires IsBare(c, t) && HistoryOk(c, t) && IsAuthenticated(a)
    requires t.atUrl == Some(a) || (IsMere(t.atUrl) && t.elsewhere == Some(a))
    ensures t.answer.None? && (t.pc.Ended? ==> t.sends != [] && t.sends[|t.sends| - 1].header == Carries(a))
  {
  }
}
