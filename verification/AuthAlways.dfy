/**
 * What the policy `Always` does not ensure. A request is meant to be authenticated or to fail, but
 * it may be sent with a mere username; and a token, which authenticates, is refused because it has
 * no password. Each is stated for every run, with its exact condition, and shown by a run.
 */
module AuthAlways {
  import opened Wrappers
  import opened Realm
  import opened Credentials
  import opened UrlTrie
  import opened CredentialsCache
  import opened AuthProtocol
  import opened AuthRuns
  import opened AuthSends
  import opened AuthHistory
  import opened AuthSteps

  predicate IsUnauthenticated(send: Send) {
    send.header.Carries? && !IsAuthenticated(send.header.auth)
  }

  /** Some request was sent with credentials that do not authenticate. */
  predicate SendsUnauthenticated(t: Task) {
    exists n :: 0 <= n < |t.sends| && IsUnauthenticated(t.sends[n])
  }

  /** Nothing was found for the URL, only a username for the index or realm, and nothing by the search. */
  predicate EndsWithUsername(t: Task) {
    t.atUrl.None? && t.elsewhere.Some? && !IsAuthenticated(t.elsewhere.value) && t.answer == Some(None)
  }

  lemma {:induction false} HeaderIsBare(c: Config, run: seq<State>, k: nat, i: nat)
    requires IsRun(c, run) && k < |run| && i < |run[k].tasks| && IsBare(c, run[k].tasks[i])
    requires !HasPolicy(c, run[k].tasks[i].job.url, Never)
    ensures !run[k].tasks[i].job.header.Carries?
  {
    JobsAreFixed(c, run, k);
    assert IsFreshTask(run[0].tasks[i]);
  }

  lemma {:induction false} PasswordsAuthenticate(a: Authentication)
    requires PasswordOf(a).Some?
    ensures IsAuthenticated(a)
  {
  }

  /**
   * A request that came with credentials that do not authenticate uses what the cache has without a
   * search. Any other one ends with a username from the cache, or is attempted first, where the
   * policy is not enforced, with a username known for the URL.
   */
  predicate IsLeftWithUsername(c: Config, t: Task) {
    if IsUserRequest(c, t) then t.elsewhere.Some? && !IsAuthenticated(t.elsewhere.value) && t.answer.None?
    else
      || EndsWithUsername(t)
      || (!Requires(c, t.job.url) && t.atUrl.Some? && !IsAuthenticated(t.atUrl.value))
  }

  /** Under `Always`, a request is sent with credentials that do not authenticate in exactly these cases. */
  lemma {:induction false} WhenAlwaysSendsUsername(c: Config, run: seq<State>, k: nat, i: nat)
    requires IsRun(c, run) && k < |run| && i < |run[k].tasks| && run[k].tasks[i].job.Handle?
    requires HasPolicy(c, run[k].tasks[i].job.url, Always) && run[k].tasks[i].pc.Ended?
    ensures SendsUnauthenticated(run[k].tasks[i]) <==> IsLeftWithUsername(c, run[k].tasks[i])
  {
    var t := run[k].tasks[i];
    if IsBare(c, t) {
      BareInRun(c, run, k, i);
      HeaderIsBare(c, run, k, i);
      UsernameIff(c, t);
    } else if IsUserRequest(c, t) {
      UserInRun(c, run, k, i);
      UserIff(c, t);
    } else {
      OwnInRun(c, run, k, i);
      OwnNeverUnauthenticated(c, t);
    }
  }

  lemma {:induction false} UserIff(c: Config, t: Task)
    requires IsUserRequest(c, t) && UserHistoryOk(c, t) && HasPolicy(c, t.job.url, Always) && t.pc.Ended?
    ensures SendsUnauthenticated(t) <==> IsLeftWithUsername(c, t)
  {
    assert |t.sends| == 1 ==> (SendsUnauthenticated(t) <==> IsUnauthenticated(t.sends[0]));
    if PasswordOf(Used(t)).Some? {
      PasswordsAuthenticate(Used(t));
    }
  }

  lemma {:induction false} OwnNeverUnauthenticated(c: Config, t: Task)
    requires IsOwnRequest(c, t) && OwnHistoryOk(c, t) && t.pc.Ended?
    ensures !SendsUnauthenticated(t) && !IsLeftWithUsername(c, t)
  {
  }

  /** So a request that came with a username is sent with credentials that authenticate, or not at all. */
  lemma {:induction false} NamedRequestsAuthenticate(c: Config, run: seq<State>, k: nat, i: nat)
    requires IsRun(c, run) && k < |run| && i < |run[k].tasks| && run[k].tasks[i].pc.Ended?
    requires IsUserRequest(c, run[k].tasks[i]) && HasPolicy(c, run[k].tasks[i].job.url, Always)
    requires UserOf(run[k].tasks[i].job.header.auth).Some?
    ensures !SendsUnauthenticated(run[k].tasks[i])
  {
    UserInRun(c, run, k, i);
    WhenAlwaysSendsUsername(c, run, k, i);
    var t := run[k].tasks[i];
    if t.elsewhere.Some? {
      PasswordsAuthenticate(t.elsewhere.value);
    }
  }

  lemma {:induction false} UsernameIff(c: Config, t: Task)
    requires IsBare(c, t) && HistoryOk(c, t) && HasPolicy(c, t.job.url, Always) && t.pc.Ended? && !t.job.header.Carries?
    ensures SendsUnauthenticated(t) <==> IsLeftWithUsername(c, t)
  {
    if HasFound(t) && PasswordOf(t.answer.value.value).Some? {
      PasswordsAuthenticate(t.answer.value.value);
    }
    FirstIsUsername(c, t);
    LastIsUsername(c, t);
  }

  /** The first attempt carries what was known for the URL. */
  lemma {:induction false} FirstIsUsername(c: Config, t: Task)
    requires IsBare(c, t) && HistoryOk(c, t) && t.pc.Ended? && !t.job.header.Carries?
    ensures AttemptsFirst(c, t) ==> t.sends != [] && (IsUnauthenticated(t.sends[0]) <==> t.atUrl.Some?)
  {
  }

  /** What follows it carries what was chosen. */
  lemma {:induction false} LastIsUsername(c: Config, t: Task)
    requires IsBare(c, t) && HistoryOk(c, t) && HasPolicy(c, t.job.url, Always) && t.pc.Ended?
    requires HasFound(t) && PasswordOf(t.answer.value.value).Some? ==> IsAuthenticated(t.answer.value.value)
    ensures var n := if AttemptsFirst(c, t) then 1 else 0;
      n <= |t.sends| <= n + 1 && ((|t.sends| > n && IsUnauthenticated(t.sends[n])) <==> EndsWithUsername(t))
  {
  }

  /** The number of requests that are sent before credentials are put forward. */
  function SendsBefore(c: Config, t: Task): nat {
    if IsBare(c, t) && AttemptsFirst(c, t) then 1 else 0
  }

  /** Under `Always`, credentials that are put forward are sent, and refused exactly if they have no password. */
  lemma {:induction false} WhenAlwaysRefuses(c: Config, run: seq<State>, k: nat, i: nat)
    requires IsRun(c, run) && k < |run| && i < |run[k].tasks| && run[k].tasks[i].pc.Ended?
    requires run[k].tasks[i].job.Handle? && HasPolicy(c, run[k].tasks[i].job.url, Always)
    requires PutForward(c, run[k].tasks[i]).Some?
    ensures var t, a, n := run[k].tasks[i], PutForward(c, run[k].tasks[i]).value, SendsBefore(c, run[k].tasks[i]);
      && (PasswordOf(a).None? <==> |t.sends| == n)
      && (PasswordOf(a).None? ==> t.pc.result.None?)
      && (PasswordOf(a).Some? ==> |t.sends| == n + 1 && t.sends[n].header == Carries(a))
  {
    var t := run[k].tasks[i];
    if IsBare(c, t) {
      BareInRun(c, run, k, i);
      RefusedIff(c, t);
    } else if IsUserRequest(c, t) {
      UserInRun(c, run, k, i);
    } else {
      OwnInRun(c, run, k, i);
    }
  }

  lemma {:induction false} RefusedIff(c: Config, t: Task)
    requires IsBare(c, t) && HistoryOk(c, t) && HasPolicy(c, t.job.url, Always) && t.pc.Ended? && HasFound(t)
    ensures var a, n := t.answer.value.value, if AttemptsFirst(c, t) then 1 else 0;
      && (PasswordOf(a).None? <==> |t.sends| == n)
      && (PasswordOf(a).None? ==> t.pc.result.None?)
      && (PasswordOf(a).Some? ==> |t.sends| == n + 1 && t.sends[n].header == Carries(a))
  {
    assert Chosen(t) == t.answer.value;
  }

  // ---------------------------------------------------------------------------------------------
  // Runs that show it

  /** Every URL belongs to one index, whose policy is `Always`; there are no platforms. */
  function Strict(index: Url): Config {
    Config(false, false, false, (url: Url) => Some(Index(index, index, Always)),
           (url: Url) => false, (url: Url) => None)
  }

  /** A request without credentials for which the cache knows nothing at the URL, up to its search. */
  lemma {:induction false} LookupRun(index: Url, run: seq<State>, id: nat, url: Url) returns (run': seq<State>)
    requires IsRun(Strict(index), run) && id < |Last(run).tasks| && Last(run).tasks[id] == FreshTask(Handle(url, Bare))
    requires AtUrl(Last(run).shared.urls, url, None).None? && AtUrl(Last(run).shared.urls, index, None).None?
    requires !Authenticates(InRealm(Last(run).shared.realms, RealmOf(url), None))
    ensures IsRun(Strict(index), run')
    ensures var found := InRealm(Last(run).shared.realms, RealmOf(url), None);
      EndsAt(run', Last(run).shared, |Last(run).tasks|, id,
             FreshTask(Handle(url, Bare)).(credentials := found, elsewhere := found, pc := Register))
  {
    var s, t := Last(run).shared, Last(run).tasks[id];
    run' := FirstLookupRun(index, run, id, s, t, url);
    run' := Move(Strict(index), run', id, Outcome(None, None), s, t.(pc := IndexLookup));
    run' := LookupRest(index, run', id, s, t, url);
  }

  lemma {:induction false} FirstLookupRun(index: Url, run: seq<State>, id: nat, s: Shared, t: Task, url: Url)
    returns (run': seq<State>)
    requires IsRun(Strict(index), run) && EndsAt(run, s, |Last(run).tasks|, id, t)
    requires t == FreshTask(Handle(url, Bare)) && AtUrl(s.urls, url, None).None?
    ensures IsRun(Strict(index), run') && EndsAt(run', s, |Last(run).tasks|, id, t.(pc := Attempt))
  {
    run' := MoveTwice(Strict(index), run, id, Outcome(None, None), s, t, s, t.(pc := UrlLookup), s, t.(pc := Attempt));
  }

  lemma {:induction false} LookupRest(index: Url, run: seq<State>, id: nat, s: Shared, t: Task, url: Url)
    returns (run': seq<State>)
    requires IsRun(Strict(index), run) && EndsAt(run, s, |Last(run).tasks|, id, t.(pc := IndexLookup))
    requires t == FreshTask(Handle(url, Bare)) && AtUrl(s.urls, index, None).None?
    requires !Authenticates(InRealm(s.realms, RealmOf(url), None))
    ensures IsRun(Strict(index), run')
    ensures var found := InRealm(s.realms, RealmOf(url), None);
      EndsAt(run', s, |Last(run).tasks|, id, t.(credentials := found, elsewhere := found, pc := Register))
  {
    var o, found := Outcome(None, None), InRealm(s.realms, RealmOf(url), None);
    run' := MoveTwice(Strict(index), run, id, o, s, t.(pc := IndexLookup), s, t.(pc := RealmLookup),
                      s, t.(credentials := found, elsewhere := found, pc := Register));
  }

  /** The search, with its answer. */
  lemma {:induction false} SearchRun(index: Url, run: seq<State>, id: nat, t: Task, found: Found)
    returns (run': seq<State>)
    requires IsRun(Strict(index), run) && EndsAt(run, Last(run).shared, |Last(run).tasks|, id, t) && t.pc.Register?
    requires KeyOf(Strict(index), t) !in Last(run).shared.fetches
    requires found.Some? ==> UsernameFor(t).None?
    ensures IsRun(Strict(index), run') && OnlyMoved(run, run', id)
    ensures Last(run').tasks[id] == t.(pc := Fetched(found), answer := Some(found))
  {
    var c, o, s := Strict(index), Outcome(None, found), Last(run).shared;
    var key := KeyOf(c, t);
    var s1 := s.(fetches := s.fetches[key := Running(id)]);
    var s2 := s1.(searches := s.searches + [key], searchUrls := s.searchUrls[key := t.job.url]);
    run' := MoveTwice(c, run, id, o, s, t, s1, t.(pc := Search), s2, t.(pc := SearchStores));
    run' := SearchRest(index, run', id, s2, t, found);
  }

  lemma {:induction false} SearchRest(index: Url, run: seq<State>, id: nat, s: Shared, t: Task, found: Found)
    returns (run': seq<State>)
    requires IsRun(Strict(index), run) && EndsAt(run, s, |Last(run).tasks|, id, t.(pc := SearchStores))
    requires found.Some? ==> UsernameFor(t).None?
    ensures IsRun(Strict(index), run') && OnlyMoved(run, run', id)
    ensures Last(run').tasks[id] == t.(pc := Fetched(found), answer := Some(found))
  {
    var c, o := Strict(index), Outcome(None, found);
    var s1 := s.(fetches := s.fetches[KeyOf(c, t) := Filled(found)]);
    run' := MoveTwice(c, run, id, o, s, t.(pc := SearchStores), s, t.(pc := Publish(found)),
                      s1, t.(pc := Fetched(found), answer := Some(found)));
  }

  /** What was stored for one page is not found for another, but found in their realm. */
  lemma {:induction false} StoredElsewhere(user: Authentication)
    ensures AtUrl(map[Components(Page("a")) := user], Page("b"), None).None?
  {
    var key := Components(Page("b"));
    assert key[..1] == [key[0]] && key[..2] == key && |key| == 2;
    assert Components(Page("a"))[1] == "a" && key[1] == "b" && "a"[0] != "b"[0];
  }

  /** The name of a user, stored for one page, is sent with a request for another page of the realm. */
  lemma {:induction false} AlwaysSendsUsername() returns (run: seq<State>)
    ensures IsRun(Strict(Page("b")), run) && |Last(run).tasks| == 2
    ensures var t := Last(run).tasks[1];
      && t.job == Handle(Page("b"), Bare)
      && HasPolicy(Strict(Page("b")), t.job.url, Always) && Requires(Strict(Page("b")), t.job.url)
      && t.sends == [Send(Carries(Plain(Basic(Some("u"), None))), Some(200))] && t.pc == Ended(Some(200))
  {
    var index, user := Page("b"), Plain(Basic(Some("u"), None));
    var c := Strict(index);
    var store, request := FreshTask(Store(Page("a"), user)), FreshTask(Handle(index, Bare));
    run := StartRun(c, [store, request]);
    run := StoreRun(c, run, 0, Page("a"), user);
    StoredElsewhere(user);
    assert RealmOf(Page("a")) == RealmOf(Page("b"));
    assert InRealm(Last(run).shared.realms, RealmOf(index), None) == Some(user);
    run := LookupRun(index, run, 1, index);
    run := SearchRun(index, run, 1, Last(run).tasks[1], None);
    run := UsernameSent(index, run, 1, user);
  }

  lemma {:induction false} UsernameSent(index: Url, run: seq<State>, id: nat, user: Authentication)
    returns (run': seq<State>)
    requires IsRun(Strict(index), run) && id < |Last(run).tasks|
    requires var t := Last(run).tasks[id];
      && t.job.Handle? && t.job.header.Bare? && t.pc == Fetched(None)
      && t.credentials == Some(user) && !t.named && t.sends == []
    ensures IsRun(Strict(index), run') && |Last(run').tasks| == |Last(run).tasks|
    ensures var t := Last(run').tasks[id];
      t.job == Last(run).tasks[id].job && t.sends == [Send(Carries(user), Some(200))] && t.pc == Ended(Some(200))
  {
    var c, o, s, t := Strict(index), Outcome(Some(200), None), Last(run).shared, Last(run).tasks[id];
    var t1 := t.(header := Carries(user), pc := Complete(None));
    run' := Move(c, run, id, o, s, t1);
    run' := SendRun(index, run', id, t1, user);
  }

  /** Sending credentials that are known already. */
  lemma {:induction false} SendRun(index: Url, run: seq<State>, id: nat, t: Task, a: Authentication)
    returns (run': seq<State>)
    requires IsRun(Strict(index), run) && EndsAt(run, Last(run).shared, |Last(run).tasks|, id, t)
    requires t.job.Handle? && t.pc == Complete(None) && t.header == Carries(a) && t.sends == []
    ensures IsRun(Strict(index), run') && |Last(run').tasks| == |Last(run).tasks|
    ensures Last(run').tasks[id] == Sent(t, Some(200), Ended(Some(200)))
  {
    var s := Last(run).shared;
    var s' := s.(accepted := s.accepted + {Origin(RealmOf(t.job.url), a)});
    run' := Move(Strict(index), run, id, Outcome(Some(200), None), s', Sent(t, Some(200), Ended(Some(200))));
  }

  /** A token that a search finds is not sent at all. */
  lemma {:induction false} AlwaysRefusesToken() returns (run: seq<State>)
    ensures IsRun(Strict(Page("b")), run) && |Last(run).tasks| == 1
    ensures var t := Last(run).tasks[0];
      && t.job == Handle(Page("b"), Bare)
      && t.answer == Some(Some(Plain(Bearer([116])))) && IsAuthenticated(Plain(Bearer([116])))
      && t.sends == [] && t.pc == Ended(None)
  {
    var index, token := Page("b"), Plain(Bearer([116]));
    var c := Strict(index);
    run := StartRun(c, [FreshTask(Handle(index, Bare))]);
    run := LookupRun(index, run, 0, index);
    run := SearchRun(index, run, 0, Last(run).tasks[0], Some(token));
    run := TokenRefused(index, run, 0, token);
  }

  lemma {:induction false} TokenRefused(index: Url, run: seq<State>, id: nat, token: Authentication)
    returns (run': seq<State>)
    requires IsRun(Strict(index), run) && id < |Last(run).tasks| && Last(run).tasks[id].pc == Fetched(Some(token))
    requires PasswordOf(token).None?
    ensures IsRun(Strict(index), run') && |Last(run').tasks| == |Last(run).tasks|
    ensures Last(run').tasks[id] == Last(run).tasks[id].(header := Carries(token), pc := Ended(None))
  {
    var c, o, s, t := Strict(index), Outcome(None, None), Last(run).shared, Last(run).tasks[id];
    var t1 := t.(header := Carries(token), pc := Complete(Some(token)));
    run' := MoveTwice(c, run, id, o, s, t, s, t1, s, t1.(pc := Ended(None)));
  }

  /** A request with an empty `Authorization` header is sent with the name of a user stored for its page. */
  lemma {:induction false} EmptyHeaderSendsUsername() returns (run: seq<State>)
    ensures IsRun(Strict(Page("b")), run) && |Last(run).tasks| == 2
    ensures var t := Last(run).tasks[1];
      && t.job == Handle(Page("b"), Carries(Plain(Basic(None, None))))
      && HasPolicy(Strict(Page("b")), t.job.url, Always) && Requires(Strict(Page("b")), t.job.url)
      && t.sends == [Send(Carries(Plain(Basic(Some("u"), None))), Some(200))] && t.pc == Ended(Some(200))
  {
    var index, user, none := Page("b"), Plain(Basic(Some("u"), None)), Plain(Basic(None, None));
    var c := Strict(index);
    var request := FreshTask(Handle(index, Carries(none)));
    run := StartRun(c, [FreshTask(Store(index, user)), request]);
    run := StoreRun(c, run, 0, index, user);
    StoredThere(index, user);
    run := EmptyHeaderRun(index, run, 1, none, user);
    run := SendRun(index, run, 1, Last(run).tasks[1], user);
  }

  lemma {:induction false} StoredThere(url: Url, a: Authentication)
    ensures AtUrl(map[Components(url) := a], url, None) == Some(a)
  {
    var urls := map[Components(url) := a];
    var key := Components(url);
    assert key[..|key|] == key;
    assert forall k :: 1 <= k < |key| ==> |key[..k]| < |key|;
    assert IsShortestPrefix(urls, key, Some(a));
    ShortestIsShortest(urls, key, 1);
    ShortestPrefixIsUnique(urls, key, Some(a), Shortest(urls, key, 1));
  }

  lemma {:induction false} EmptyHeaderRun(index: Url, run: seq<State>, id: nat, none: Authentication, a: Authentication)
    returns (run': seq<State>)
    requires IsRun(Strict(index), run) && id < |Last(run).tasks|
    requires Last(run).tasks[id] == FreshTask(Handle(index, Carries(none)))
    requires none == Plain(Basic(None, None)) && AtUrl(Last(run).shared.urls, index, None) == Some(a)
    ensures IsRun(Strict(index), run')
    ensures var t := FreshTask(Handle(index, Carries(none))).(credentials := Some(none), elsewhere := Some(a));
      EndsAt(run', Last(run).shared, |Last(run).tasks|, id, t.(header := Carries(a), pc := Complete(None)))
  {
    var c, o, s, t := Strict(index), Outcome(Some(200), None), Last(run).shared, Last(run).tasks[id];
    var t1 := t.(credentials := Some(none), pc := UserFirst);
    var t2 := t1.(header := Carries(a), elsewhere := Some(a), pc := Complete(None));
    EmptyHeaderStarts(index, id, s, t, none, o);
    EmptyHeaderLooks(index, id, s, t1, a, o);
    run' := MoveTwice(c, run, id, o, s, t, s, t1, s, t2);
  }

  lemma {:induction false} EmptyHeaderStarts(index: Url, id: nat, s: Shared, t: Task, none: Authentication, o: Outcome)
    requires t == FreshTask(Handle(index, Carries(none))) && none == Plain(Basic(None, None))
    ensures var c := Strict(index);
      && NextTask(c, s, t, o) == t.(credentials := Some(none), pc := UserFirst)
      && NextShared(c, id, s, t, o) == s
  {
  }

  lemma {:induction false} EmptyHeaderLooks(index: Url, id: nat, s: Shared, t: Task, a: Authentication, o: Outcome)
    requires t.pc.UserFirst? && UsernameFor(t).None? && AtUrl(s.urls, index, None) == Some(a)
    ensures var c := Strict(index);
      && NextTask(c, s, t, o) == t.(header := Carries(a), elsewhere := Some(a), pc := Complete(None))
      && NextShared(c, id, s, t, o) == s
  {
  }

  /** Nor is a request sent that comes with a token of its own. */
  lemma {:induction false} AlwaysRefusesOwnToken() returns (run: seq<State>)
    ensures IsRun(Strict(Page("b")), run) && |Last(run).tasks| == 1
    ensures var t := Last(run).tasks[0];
      && t.job == Handle(Page("b"), Carries(Plain(Bearer([116])))) && IsAuthenticated(Plain(Bearer([116])))
      && t.sends == [] && t.pc == Ended(None)
  {
    var index, token := Page("b"), Plain(Bearer([116]));
    var c, o, t := Strict(index), Outcome(None, None), FreshTask(Handle(index, Carries(token)));
    run := StartRun(c, [t]);
    var s, t1 := Empty(), t.(pc := Complete(Some(token)));
    run := MoveTwice(c, run, 0, o, s, t, s, t1, s, t.(pc := Ended(None)));
  }
}
