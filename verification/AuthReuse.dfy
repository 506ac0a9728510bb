/**
 * What becomes of credentials once they are in the cache, in every run and whatever other tasks do
 * in between: requests below a URL with an entry that authenticates use it at once and do not
 * search, and an entry stops authenticating only by one kind of step.
 */
module AuthReuse {
  import opened Wrappers
  import opened Realm
  import opened Credentials
  import opened UrlTrie
  import opened CredentialsCache
  import opened AuthProtocol
  import opened AuthRuns
  import opened AuthSends
  import opened AuthHistory
  import opened AuthOrigins
  import opened AuthSteps

  // ---------------------------------------------------------------------------------------------
  // When a URL stops being authenticated

  /** The cache authenticates requests for the URL. */
  predicate IsCovered(s: Shared, url: Url) {
    Authenticates(AtUrl(s.urls, url, None))
  }

  /** A mere username is about to be written at or above the URL, where no shorter entry hides it. */
  predicate IsUncovering(s: Shared, t: Task, url: Url) {
    IsMereInsertion(t, url) && Above(s.urls, t.job.url).None?
  }

  /** A URL stops being covered by exactly such a step: the trie, unlike the realm map, forgets passwords. */
  lemma {:induction false} WhenUncovered(c: Config, id: nat, s: Shared, t: Task, o: Outcome, url: Url)
    requires Enabled(c, s, t) && IsCovered(s, url)
    ensures !IsCovered(NextShared(c, id, s, t, o), url) <==> IsUncovering(s, t, url)
  {
    if t.pc.InsertUrl? {
      WhatInsertionChanges(s.urls, t.job.url, t.pc.auth, url);
    } else {
      UrlsUnchanged(c, id, s, t, o);
    }
  }

  lemma {:induction false} UrlsUnchanged(c: Config, id: nat, s: Shared, t: Task, o: Outcome)
    requires Enabled(c, s, t) && !t.pc.InsertUrl?
    ensures NextShared(c, id, s, t, o).urls == s.urls
  {
  }

  lemma {:induction false} NothingIsFound(key: Key, k: nat)
    ensures Shortest(map[], key, k) == None
    decreases |key| + 1 - k
  {
    if k <= |key| {
      NothingIsFound(key, k + 1);
    }
  }

  lemma {:induction false} NothingAbove(url: Url, a: Authentication)
    ensures Above(map[], url).None? && Above(map[Components(url) := a], url).None?
  {
    var key := Components(url);
    NothingIsFound(key[..|key| - 1], 1);
    ShortestIgnoresLonger(map[], key[..|key| - 1], key, a, 1);
    assert map[][key := a] == map[key := a];
  }

  /** A password stored for a page is forgotten when the mere name of a user is stored for it. */
  lemma {:induction false} UrlEntryIsLost(c: Config) returns (run: seq<State>, k: nat)
    requires ValidConfig(c)
    ensures IsRun(c, run) && k < |run| && IsCovered(run[k].shared, Page("a")) && !IsCovered(Last(run).shared, Page("a"))
  {
    var url, full, mere := Page("a"), Plain(Basic(Some("u"), Some("p"))), Plain(Basic(Some("u"), None));
    run := StartRun(c, [FreshTask(Store(url, full)), FreshTask(Store(url, mere))]);
    run := StoreRun(c, run, 0, url, full);
    k := |run| - 1;
    NothingAbove(url, full);
    WhatInsertionChanges(map[], url, full, url);
    WhatInsertionChanges(Last(run).shared.urls, url, mere, url);
    assert map[][Components(url) := full] == map[Components(url) := full];
    run := StoreRun(c, run, 1, url, mere);
  }

  predicate IsMereInsertion(t: Task, url: Url) {
    t.pc.InsertUrl? && !IsAuthenticated(t.pc.auth) && Components(t.job.url) <= Components(url)
  }

  /** The step from state `x` uncovers the URL. */
  ghost predicate UncoversAt(c: Config, run: seq<State>, x: nat, url: Url)
    requires x + 1 < |run|
  {
    exists id: nat, o ::
      && CanStep(c, run[x], id, o) && run[x + 1] == Next(c, run[x], id, o)
      && IsUncovering(run[x].shared, run[x].tasks[id], url)
  }

  ghost predicate NothingUncovers(c: Config, run: seq<State>, k: nat, m: nat, url: Url)
    requires m < |run|
  {
    forall x: nat :: k <= x < m ==> !UncoversAt(c, run, x, url)
  }

  /** A URL that is covered stays so exactly as long as no step uncovers it. */
  lemma {:induction false} StaysCovered(c: Config, run: seq<State>, k: nat, m: nat, url: Url)
    requires IsRun(c, run) && k <= m < |run| && IsCovered(run[k].shared, url)
    ensures (forall x: nat :: k <= x <= m ==> IsCovered(run[x].shared, url)) <==> NothingUncovers(c, run, k, m, url)
  {
    if NothingUncovers(c, run, k, m, url) {
      forall x: nat | k <= x <= m ensures IsCovered(run[x].shared, url) {
        CoveredUntil(c, run, k, x, url);
      }
    } else {
      var x: nat :| k <= x < m && UncoversAt(c, run, x, url);
      if IsCovered(run[x].shared, url) {
        UncoveredNext(c, run, x, url);
      }
    }
  }

  lemma {:induction false} CoveredUntil(c: Config, run: seq<State>, k: nat, m: nat, url: Url)
    requires IsRun(c, run) && k <= m < |run| && IsCovered(run[k].shared, url) && NothingUncovers(c, run, k, m, url)
    ensures IsCovered(run[m].shared, url)
  {
    forall x: nat | k <= x < m && IsCovered(run[x].shared, url) ensures IsCovered(run[x + 1].shared, url) {
      CoveredNext(c, run, x, url);
    }
    Onwards(run, k, m, (s: State) => IsCovered(s.shared, url));
  }

  lemma {:induction false} CoveredNext(c: Config, run: seq<State>, x: nat, url: Url)
    requires IsRun(c, run) && x + 1 < |run| && IsCovered(run[x].shared, url) && !UncoversAt(c, run, x, url)
    ensures IsCovered(run[x + 1].shared, url)
  {
    var id, o := StepOf(c, run, x);
    WhenUncovered(c, id, run[x].shared, run[x].tasks[id], o, url);
  }

  lemma {:induction false} UncoveredNext(c: Config, run: seq<State>, x: nat, url: Url)
    requires x + 1 < |run| && IsCovered(run[x].shared, url) && UncoversAt(c, run, x, url)
    ensures !IsCovered(run[x + 1].shared, url)
  {
    var id: nat, o :|
      && CanStep(c, run[x], id, o) && run[x + 1] == Next(c, run[x], id, o)
      && IsUncovering(run[x].shared, run[x].tasks[id], url);
    WhenUncovered(c, id, run[x].shared, run[x].tasks[id], o, url);
  }

  // ---------------------------------------------------------------------------------------------
  // Requests below a covered URL

  /** A request without credentials that the policy lets look for some. */
  predicate LooksFirst(c: Config, t: Task) {
    IsBare(c, t) && !HasPolicy(c, t.job.url, Never)
  }

  predicate IsWaitingToLook(t: Task) {
    (t.pc.Begin? || t.pc.UrlLookup?) && t.sends == [] && t.answer.None?
  }

  /** The request is sent once, with what the cache had for its URL, which authenticates. */
  predicate UsesCache(t: Task) {
    && Authenticates(t.atUrl) && t.answer.None?
    && (if t.pc.Ended? then |t.sends| == 1 && t.sends[0].header == Carries(t.atUrl.value)
        else t.pc == Complete(None) && t.header == Carries(t.atUrl.value) && t.sends == [])
  }

  predicate WillUseCache(t: Task) {
    IsWaitingToLook(t) || UsesCache(t)
  }

  lemma {:induction false} UseStep(c: Config, s: Shared, t: Task, o: Outcome)
    requires Enabled(c, s, t) && LooksFirst(c, t) && WillUseCache(t) && IsCovered(s, t.job.url)
    ensures WillUseCache(NextTask(c, s, t, o))
  {
    if t.pc.UrlLookup? {
      LookedUp(t, AtUrl(s.urls, t.job.url, None));
    }
  }

  lemma {:induction false} LookedUp(t: Task, found: Found)
    requires t.pc.UrlLookup? && IsWaitingToLook(t) && Authenticates(found)
    ensures UsesCache(AfterUrlLookup(t, found))
  {
  }

  /**
   * Once a URL is covered, every request for it that has not looked yet is sent once, with cached
   * credentials that authenticate, and never searches, as long as nothing uncovers the URL.
   */
  lemma {:induction false} CoveredIsUsed(c: Config, run: seq<State>, k: nat, m: nat, i: nat)
    requires IsRun(c, run) && k <= m < |run| && i < |run[k].tasks|
    requires LooksFirst(c, run[k].tasks[i]) && IsWaitingToLook(run[k].tasks[i])
    requires IsCovered(run[k].shared, run[k].tasks[i].job.url) && NothingUncovers(c, run, k, m, run[k].tasks[i].job.url)
    ensures |run[m].tasks| == |run[k].tasks| && run[m].tasks[i].job == run[k].tasks[i].job
    ensures LooksFirst(c, run[m].tasks[i]) && WillUseCache(run[m].tasks[i])
  {
    var job := run[k].tasks[i].job;
    forall x: nat | k <= x < m && IsOnTrack(c, run[x], job, i) ensures IsOnTrack(c, run[x + 1], job, i) {
      CoveredUntil(c, run, k, x, job.url);
      OnTrackNext(c, run, x, job, i);
    }
    Onwards(run, k, m, (s: State) => IsOnTrack(c, s, job, i));
    JobsAreFixed(c, run, k);
    JobsAreFixed(c, run, m);
  }

  predicate IsOnTrack(c: Config, s: State, job: Job, i: nat) {
    i < |s.tasks| && s.tasks[i].job == job && LooksFirst(c, s.tasks[i]) && WillUseCache(s.tasks[i])
  }

  lemma {:induction false} OnTrackNext(c: Config, run: seq<State>, x: nat, job: Job, i: nat)
    requires IsRun(c, run) && x + 1 < |run| && IsOnTrack(c, run[x], job, i) && IsCovered(run[x].shared, job.url)
    ensures IsOnTrack(c, run[x + 1], job, i)
  {
    var id, o := StepOf(c, run, x);
    if id == i {
      UseStep(c, run[x].shared, run[x].tasks[i], o);
      JobIsFixed(c, run[x].shared, run[x].tasks[i], o);
    }
  }

  /**
   * Credentials that authenticate and are inserted where no shorter entry hides them are used like
   * that by every request below, and are known in the realm of that request.
   */
  lemma {:induction false} AcceptedIsReused(c: Config, run: seq<State>, k: nat, url: Url, a: Authentication, m: nat,
                                            i: nat)
    requires IsRun(c, run) && k < m < |run| && IsInsertion(run[k].shared, run[k + 1].shared, url, a)
    requires IsAuthenticated(a) && Above(run[k].shared.urls, url).None?
    requires i < |run[k + 1].tasks| && LooksFirst(c, run[k + 1].tasks[i]) && IsWaitingToLook(run[k + 1].tasks[i])
    requires Components(url) <= Components(run[k + 1].tasks[i].job.url)
    requires NothingUncovers(c, run, k + 1, m, run[k + 1].tasks[i].job.url)
    requires IndexesAreLocal(c) && AllHaveHosts(JobUrls(run[0]))
    ensures |run[m].tasks| == |run[k + 1].tasks| && WillUseCache(run[m].tasks[i])
    ensures run[m].tasks[i].pc.Ended? ==>
      IsKnown(run[m].shared, RealmOf(run[m].tasks[i].job.url), run[m].tasks[i].atUrl.value)
  {
    WhatInsertionChanges(run[k].shared.urls, url, a, run[k + 1].tasks[i].job.url);
    CoveredIsUsed(c, run, k + 1, m, i);
    if run[m].tasks[i].pc.Ended? {
      UsedIsKnown(c, run, m, i);
    }
  }

  /** The step writes the credentials for the URL into the trie. */
  predicate IsInsertion(s: Shared, s': Shared, url: Url, a: Authentication) {
    s'.urls == s.urls[Components(url) := a]
  }

  lemma {:induction false} UsedIsKnown(c: Config, run: seq<State>, m: nat, i: nat)
    requires IsRun(c, run) && m < |run| && i < |run[m].tasks| && LooksFirst(c, run[m].tasks[i])
    requires run[m].tasks[i].pc.Ended? && UsesCache(run[m].tasks[i])
    requires IndexesAreLocal(c) && AllHaveHosts(JobUrls(run[0]))
    ensures IsKnown(run[m].shared, RealmOf(run[m].tasks[i].job.url), run[m].tasks[i].atUrl.value)
  {
    CredentialsStayInTheirRealm(c, run, m, i, 0);
    JobsAreFixed(c, run, m);
    assert IsFreshTask(run[0].tasks[i]);
  }

  // ---------------------------------------------------------------------------------------------
  // When the cache is of no use

  /** A request searches only after it has found nothing that authenticates, and was refused if it was attempted. */
  lemma {:induction false} SearchesOnlyAfterMisses(c: Config, run: seq<State>, k: nat, i: nat)
    requires IsRun(c, run) && k < |run| && i < |run[k].tasks| && IsBare(c, run[k].tasks[i])
    requires IsFetching(run[k].tasks[i].pc) || run[k].tasks[i].answer.Some?
    ensures var t := run[k].tasks[i];
      && !Authenticates(t.atUrl) && !Authenticates(t.elsewhere)
      && (Requires(c, t.job.url) || (t.sends != [] && WasRefused(t.sends[0])))
  {
    BareInRun(c, run, k, i);
  }

  /**
   * Where a request need not be authenticated, it ends without having been sent with credentials
   * exactly if nothing was known for its URL and either it was not refused, or nothing was known for
   * its index or realm and a search found nothing, or what the search found is refused.
   */
  lemma {:induction false} WhenNothingIsTried(c: Config, run: seq<State>, k: nat, i: nat)
    requires IsRun(c, run) && k < |run| && i < |run[k].tasks| && run[k].tasks[i].pc.Ended?
    requires LooksFirst(c, run[k].tasks[i])
    requires !Requires(c, run[k].tasks[i].job.url)
    ensures var t := run[k].tasks[i];
      t.sends != [] &&
      ((forall n :: 0 <= n < |t.sends| ==> !t.sends[n].header.Carries?) <==>
        t.atUrl.None? && (!WasRefused(t.sends[0]) || (t.elsewhere.None? && t.answer == Some(None)) || IsRefused(c, t)))
  {
    BareInRun(c, run, k, i);
    JobsAreFixed(c, run, k);
    assert IsFreshTask(run[0].tasks[i]);
    NothingTried(c, run[k].tasks[i]);
  }

  lemma {:induction false} NothingTried(c: Config, t: Task)
    requires LooksFirst(c, t) && HistoryOk(c, t) && t.pc.Ended? && !t.job.header.Carries?
    requires !Requires(c, t.job.url)
    ensures t.sends != []
    ensures (forall n :: 0 <= n < |t.sends| ==> !t.sends[n].header.Carries?) <==>
      t.atUrl.None? && (!WasRefused(t.sends[0]) || (t.elsewhere.None? && t.answer == Some(None)) || IsRefused(c, t))
  {
    assert |t.sends| == 2 ==> t.sends[1].header.Carries?;
  }
}
