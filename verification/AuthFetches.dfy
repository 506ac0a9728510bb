/**
 * The shared searches for credentials, in every run: each key is searched for once, everyone who
 * asks gets that one result, the token store is called once, and nobody waits for ever.
 */
module AuthFetches {
  import opened Wrappers
  import opened Realm
  import opened AuthProtocol
  import opened AuthRuns

  // ---------------------------------------------------------------------------------------------
  // Who owns what

  /** Between registering a fetch and publishing its result. */
  predicate IsFetcher(pc: Pc) {
    pc.Search? || pc.SearchStores? || pc.Publish? || pc.TokenLock? || pc.TokenRead? || pc.TokenPublish?
  }

  predicate HoldsToken(pc: Pc) {
    pc.TokenRead? || pc.TokenPublish? || pc.TokenRelease?
  }

  predicate IsBeforeAnswer(pc: Pc) {
    pc.Begin? || pc.Attempt? || IsLookup(pc) || IsFetching(pc) || pc.UserFirst? || pc.UserRoot? || pc.UserUrl?
  }

  predicate HasSlot(s: Shared, key: FetchKey, slot: Slot) {
    key in s.fetches && s.fetches[key] == slot
  }

  /** A slot is marked as running by a task exactly while that task runs the fetch for it. */
  ghost predicate OwnsItsSlot(c: Config, s: Shared, id: nat, t: Task) {
    forall key :: HasSlot(s, key, Running(id)) <==> IsFetcher(t.pc) && key == KeyOf(c, t)
  }

  /** What a task has been told is what the map holds. */
  predicate KnowsItsAnswer(c: Config, s: Shared, t: Task) {
    && (IsBeforeAnswer(t.pc) ==> t.answer.None?)
    && (t.pc.Waiting? ==> KeyOf(c, t) in s.fetches)
    && (t.pc.TokenRelease? ==> HasSlot(s, KeyOf(c, t), Filled(t.pc.found)))
    && (t.answer.Some? ==> HasSlot(s, KeyOf(c, t), Filled(t.answer.value)))
    && (t.pc.Fetched? ==> t.answer == Some(t.pc.found))
  }

  ghost predicate FetchOk(c: Config, n: nat, s: Shared, id: nat, t: Task) {
    && id < n
    && OwnsItsSlot(c, s, id, t) && KnowsItsAnswer(c, s, t)
    && (s.holder == Some(id) <==> HoldsToken(t.pc))
    && (t.pc.Search? ==> KeyOf(c, t) !in s.searches)
  }

  predicate NoRepeats(keys: seq<FetchKey>) {
    forall i, j :: 0 <= i < j < |keys| ==> keys[i] != keys[j]
  }

  ghost predicate SharedOk(n: nat, s: Shared) {
    && (forall key :: key in s.searches ==> key in s.fetches)
    && (forall key :: key in s.fetches && s.fetches[key].Running? ==> s.fetches[key].fetcher < n)
    && (s.holder.Some? ==> s.holder.value < n)
    && NoRepeats(s.searches)
    && s.tokenCalls == (if s.token.Initialized? then 1 else 0)
  }

  // ---------------------------------------------------------------------------------------------
  // One step

  /** What a step may do to the parts of the shared state that fetches use. */
  ghost predicate Touches(id: nat, s: Shared, s': Shared) {
    && (forall key :: key in s.fetches && s.fetches[key] != Running(id) ==> HasSlot(s', key, s.fetches[key]))
    && (forall key :: key in s'.fetches && s'.fetches[key].Running? ==>
         HasSlot(s, key, s'.fetches[key]) || s'.fetches[key].fetcher == id)
    && (forall key :: key in s.fetches ==> key in s'.fetches)
    && (forall key :: key in s'.searches && key !in s.searches ==> HasSlot(s, key, Running(id)))
    && (forall j: nat :: j != id ==> (s.holder == Some(j) <==> s'.holder == Some(j)))
  }

  lemma {:induction false} OthersAreUntouched(c: Config, n: nat, id: nat, s: Shared, s': Shared, j: nat, u: Task)
    requires Touches(id, s, s') && j != id && FetchOk(c, n, s, j, u)
    ensures FetchOk(c, n, s', j, u)
  {
    forall key ensures HasSlot(s', key, Running(j)) <==> HasSlot(s, key, Running(j)) {
    }
    assert HasSlot(s, KeyOf(c, u), Running(j)) ==> !HasSlot(s, KeyOf(c, u), Running(id));
  }

  /** Nothing has changed that fetches use. */
  predicate HasSameFetches(s: Shared, s': Shared) {
    && s'.fetches == s.fetches && s'.holder == s.holder && s'.searches == s.searches
    && s'.searchUrls == s.searchUrls && s'.token == s.token && s'.tokenCalls == s.tokenCalls
  }

  lemma {:induction false} AcceptingLeavesFetches(s: Shared, t: Task, t': Task)
    ensures HasSameFetches(s, Accept(s, t, t'))
  {
  }

  lemma {:induction false} ElsewhereStep(c: Config, id: nat, s: Shared, t: Task, o: Outcome)
    requires Enabled(c, s, t) && !IsFetching(t.pc)
    ensures HasSameFetches(s, NextShared(c, id, s, t, o))
  {
    if t.pc.Attempt? {
      AcceptingLeavesFetches(s, t, AfterAttempt(c, t, o.status));
    } else if t.pc.Complete? {
      AcceptingLeavesFetches(s, t, AfterComplete(c, t, t.pc.insert, o.status));
    }
  }

  /** Outside of fetches, a task keeps its key once it has an answer. */
  lemma {:induction false} ElsewhereTask(c: Config, s: Shared, t: Task, o: Outcome)
    requires Enabled(c, s, t) && !IsFetching(t.pc)
    ensures var t' := NextTask(c, s, t, o);
      && t'.answer == t.answer && !IsFetcher(t'.pc) && !HoldsToken(t'.pc) && !t'.pc.Waiting? && !t'.pc.Fetched?
      && (IsBeforeAnswer(t'.pc) ==> IsBeforeAnswer(t.pc))
      && (!IsBeforeAnswer(t.pc) ==> KeyOf(c, t') == KeyOf(c, t))
  {
    if IsLookup(t.pc) {
      LookupTask(c, s, t);
    } else if IsUserLookup(t.pc) {
      UserLookupTask(c, s, t);
    } else {
      OtherTask(c, s, t, o);
    }
  }

  lemma {:induction false} OtherTask(c: Config, s: Shared, t: Task, o: Outcome)
    requires Enabled(c, s, t) && !IsLookup(t.pc) && !IsUserLookup(t.pc) && !IsFetching(t.pc)
    ensures var t' := NextTask(c, s, t, o);
      && t'.answer == t.answer && t'.job == t.job && !IsFetching(t'.pc) && !t'.pc.Fetched?
      && (IsBeforeAnswer(t'.pc) ==> IsBeforeAnswer(t.pc)) && (!IsBeforeAnswer(t.pc) ==> t'.credentials == t.credentials)
  {
  }

  lemma {:induction false} FetchOkElsewhere(c: Config, n: nat, id: nat, s: Shared, t: Task, o: Outcome)
    requires Enabled(c, s, t) && FetchOk(c, n, s, id, t) && SharedOk(n, s) && !IsFetching(t.pc)
    ensures var s' := NextShared(c, id, s, t, o);
      FetchOk(c, n, s', id, NextTask(c, s, t, o)) && SharedOk(n, s') && Touches(id, s, s')
  {
    var s', t' := NextShared(c, id, s, t, o), NextTask(c, s, t, o);
    ElsewhereTask(c, s, t, o);
    ElsewhereStep(c, id, s, t, o);
    assert forall key :: HasSlot(s', key, Running(id)) <==> HasSlot(s, key, Running(id));
  }

  /** Registering a fetch, or finding that it runs already. */
  lemma {:induction false} RegisterStep(c: Config, n: nat, id: nat, s: Shared, t: Task, o: Outcome)
    requires Enabled(c, s, t) && FetchOk(c, n, s, id, t) && SharedOk(n, s) && t.pc.Register?
    ensures var s' := NextShared(c, id, s, t, o);
      FetchOk(c, n, s', id, AfterFetching(c, s, t, o)) && SharedOk(n, s') && Touches(id, s, s')
  {
    FetchingTask(c, s, t, o);
    if KeyOf(c, t) !in s.fetches {
      assert AfterFetching(c, s, t, o) == t.(pc := Search);
      NewFetch(c, n, id, s, t);
    }
  }

  lemma {:induction false} NewFetch(c: Config, n: nat, id: nat, s: Shared, t: Task)
    requires FetchOk(c, n, s, id, t) && SharedOk(n, s) && t.pc.Register? && KeyOf(c, t) !in s.fetches
    ensures var s' := s.(fetches := s.fetches[KeyOf(c, t) := Running(id)]);
      FetchOk(c, n, s', id, t.(pc := Search)) && SharedOk(n, s') && Touches(id, s, s')
  {
    var s', key := s.(fetches := s.fetches[KeyOf(c, t) := Running(id)]), KeyOf(c, t);
    assert KeyOf(c, t.(pc := Search)) == key;
    assert forall k :: k != key ==> (HasSlot(s', k, Running(id)) <==> HasSlot(s, k, Running(id)));
  }

  /** Steps that change neither slots nor the mutex. */
  lemma {:induction false} QuietStep(c: Config, n: nat, id: nat, s: Shared, t: Task, o: Outcome)
    requires Enabled(c, s, t) && FetchOk(c, n, s, id, t) && SharedOk(n, s)
    requires t.pc.Waiting? || t.pc.SearchStores? || t.pc.TokenRead?
    ensures var s' := NextShared(c, id, s, t, o);
      FetchOk(c, n, s', id, AfterFetching(c, s, t, o)) && SharedOk(n, s') && Touches(id, s, s')
  {
    FetchingTask(c, s, t, o);
    var s' := NextShared(c, id, s, t, o);
    assert s'.fetches == s.fetches && s'.holder == s.holder && s'.searches == s.searches;
    assert forall k :: HasSlot(s', k, Running(id)) <==> HasSlot(s, k, Running(id));
  }

  lemma {:induction false} SearchStep(c: Config, n: nat, id: nat, s: Shared, t: Task, o: Outcome)
    requires Enabled(c, s, t) && FetchOk(c, n, s, id, t) && SharedOk(n, s) && t.pc.Search?
    ensures var s' := NextShared(c, id, s, t, o);
      FetchOk(c, n, s', id, AfterFetching(c, s, t, o)) && SharedOk(n, s') && Touches(id, s, s')
  {
    FetchingTask(c, s, t, o);
    var s', key := NextShared(c, id, s, t, o), KeyOf(c, t);
    assert HasSlot(s, key, Running(id));
    assert s'.fetches == s.fetches && s'.holder == s.holder && s'.searches == s.searches + [key];
    assert forall k :: HasSlot(s', k, Running(id)) <==> HasSlot(s, k, Running(id));
  }

  lemma {:induction false} MutexStep(c: Config, n: nat, id: nat, s: Shared, t: Task, o: Outcome)
    requires Enabled(c, s, t) && FetchOk(c, n, s, id, t) && SharedOk(n, s) && (t.pc.TokenLock? || t.pc.TokenRelease?)
    ensures var s' := NextShared(c, id, s, t, o);
      FetchOk(c, n, s', id, AfterFetching(c, s, t, o)) && SharedOk(n, s') && Touches(id, s, s')
  {
    FetchingTask(c, s, t, o);
    var s' := NextShared(c, id, s, t, o);
    assert s'.fetches == s.fetches && s'.searches == s.searches;
    assert forall k :: HasSlot(s', k, Running(id)) <==> HasSlot(s, k, Running(id));
  }

  lemma {:induction false} PublishStep(c: Config, n: nat, id: nat, s: Shared, t: Task, o: Outcome)
    requires Enabled(c, s, t) && FetchOk(c, n, s, id, t) && SharedOk(n, s) && (t.pc.Publish? || t.pc.TokenPublish?)
    ensures var s' := NextShared(c, id, s, t, o);
      FetchOk(c, n, s', id, AfterFetching(c, s, t, o)) && SharedOk(n, s') && Touches(id, s, s')
  {
    FetchingTask(c, s, t, o);
    var s', key := NextShared(c, id, s, t, o), KeyOf(c, t);
    assert HasSlot(s, key, Running(id)) && s'.fetches == s.fetches[key := Filled(t.pc.found)];
    assert forall k :: HasSlot(s', k, Running(id)) <==> HasSlot(s, k, Running(id)) && k != key;
  }

  lemma {:induction false} FetchStep(c: Config, n: nat, id: nat, s: Shared, t: Task, o: Outcome)
    requires Enabled(c, s, t) && FetchOk(c, n, s, id, t) && SharedOk(n, s)
    ensures var s' := NextShared(c, id, s, t, o);
      FetchOk(c, n, s', id, NextTask(c, s, t, o)) && SharedOk(n, s') && Touches(id, s, s')
  {
    if !IsFetching(t.pc) {
      FetchOkElsewhere(c, n, id, s, t, o);
    } else {
      FetchingTask(c, s, t, o);
      match t.pc
      case Register => RegisterStep(c, n, id, s, t, o);
      case Search => SearchStep(c, n, id, s, t, o);
      case TokenLock => MutexStep(c, n, id, s, t, o);
      case TokenRelease(_) => MutexStep(c, n, id, s, t, o);
      case Publish(_) => PublishStep(c, n, id, s, t, o);
      case TokenPublish(_) => PublishStep(c, n, id, s, t, o);
      case _ => QuietStep(c, n, id, s, t, o);
    }
  }

  // ---------------------------------------------------------------------------------------------
  // Every run

  ghost predicate FetchesOk(c: Config, s: State) {
    var n := |s.tasks|;
    SharedOk(n, s.shared) && forall i: nat :: i < n ==> FetchOk(c, n, s.shared, i, s.tasks[i])
  }

  lemma {:induction false} FetchesInRun(c: Config, run: seq<State>, k: nat)
    requires IsRun(c, run) && k < |run|
    ensures FetchesOk(c, run[k])
  {
    var n := |run[0].tasks|;
    var shared: SharedInvariant := s => SharedOk(n, s);
    var local: LocalInvariant := (s: Shared, id: nat, t: Task) => FetchOk(c, n, s, id, t);
    forall id: nat, s, t, o | Enabled(c, s, t) && Allowed(t, o) && shared(s) && local(s, id, t)
      ensures shared(NextShared(c, id, s, t, o)) && local(NextShared(c, id, s, t, o), id, NextTask(c, s, t, o))
    {
      FetchStep(c, n, id, s, t, o);
    }
    forall id: nat, s, t, o, j: nat, u |
      Enabled(c, s, t) && Allowed(t, o) && shared(s) && local(s, id, t) && j != id && local(s, j, u)
      ensures local(NextShared(c, id, s, t, o), j, u)
    {
      FetchStep(c, n, id, s, t, o);
      OthersAreUntouched(c, n, id, s, NextShared(c, id, s, t, o), j, u);
    }
    assert HoldsIn(run[0], shared, local);
    HoldsInRun(c, run, k, shared, local);
    JobsAreFixed(c, run, k);
    forall i: nat | i < n ensures FetchOk(c, n, run[k].shared, i, run[k].tasks[i]) {
      assert local(run[k].shared, i, run[k].tasks[i]);
    }
  }

  /** No key is searched for twice, and the token store is called at most once. */
  lemma {:induction false} SearchedOnce(c: Config, run: seq<State>, k: nat)
    requires IsRun(c, run) && k < |run|
    ensures NoRepeats(run[k].shared.searches) && run[k].shared.tokenCalls <= 1
  {
    FetchesInRun(c, run, k);
  }

  /** A published result is never replaced. */
  lemma {:induction false} ResultsStay(c: Config, run: seq<State>, k: nat, m: nat, key: FetchKey, found: Found)
    requires IsRun(c, run) && k <= m < |run| && HasSlot(run[k].shared, key, Filled(found))
    ensures HasSlot(run[m].shared, key, Filled(found))
  {
    forall x: nat | k <= x < m && HasSlot(run[x].shared, key, Filled(found))
      ensures HasSlot(run[x + 1].shared, key, Filled(found))
    {
      ResultStays(c, run, x, key, found);
    }
    Onwards(run, k, m, (s: State) => HasSlot(s.shared, key, Filled(found)));
  }

  lemma {:induction false} ResultStays(c: Config, run: seq<State>, x: nat, key: FetchKey, found: Found)
    requires IsRun(c, run) && x + 1 < |run| && HasSlot(run[x].shared, key, Filled(found))
    ensures HasSlot(run[x + 1].shared, key, Filled(found))
  {
    FetchesInRun(c, run, x);
    var id, o := StepOf(c, run, x);
    assert FetchOk(c, |run[x].tasks|, run[x].shared, id, run[x].tasks[id]);
    FetchStep(c, |run[x].tasks|, id, run[x].shared, run[x].tasks[id], o);
  }

  /** Two URLs belong to the same index, or to the same realm if there is no index for either. */
  predicate SharesPlace(c: Config, url: Url, other: Url) {
    match c.indexFor(url)
    case Some(index) => c.indexFor(other).Some? && c.indexFor(other).value.url == index.url
    case None => c.indexFor(other).None? && RealmOf(url) == RealmOf(other)
  }

  predicate SharesFetch(c: Config, t: Task, u: Task) {
    UsernameFor(t) == UsernameFor(u) && SharesPlace(c, t.job.url, u.job.url)
  }

  lemma {:induction false} KeysAgree(c: Config, t: Task, u: Task)
    ensures KeyOf(c, t) == KeyOf(c, u) <==> SharesFetch(c, t, u)
  {
  }

  /** Of all tasks that share a fetch, one searches, once. */
  lemma {:induction false} SearchesOnceForAll(c: Config, run: seq<State>, x: nat, i: nat, o: Outcome, y: nat, j: nat)
    requires IsRun(c, run) && x < y < |run| && CanStep(c, run[x], i, o) && run[x + 1] == Next(c, run[x], i, o)
    requires run[x].tasks[i].pc.Search? && j < |run[y].tasks| && run[y].tasks[j].pc.Search?
    ensures !SharesFetch(c, run[x].tasks[i], run[y].tasks[j])
  {
    var key := KeyOf(c, run[x].tasks[i]);
    KeysAgree(c, run[x].tasks[i], run[y].tasks[j]);
    forall z: nat | x + 1 <= z < y && key in run[z].shared.searches ensures key in run[z + 1].shared.searches {
      SearchesStay(c, run, z, key);
    }
    Onwards(run, x + 1, y, (s: State) => key in s.shared.searches);
    FetchesInRun(c, run, y);
    assert FetchOk(c, |run[y].tasks|, run[y].shared, j, run[y].tasks[j]);
  }

  lemma {:induction false} SearchesStay(c: Config, run: seq<State>, z: nat, key: FetchKey)
    requires IsRun(c, run) && z + 1 < |run| && key in run[z].shared.searches
    ensures key in run[z + 1].shared.searches
  {
    var id, o := StepOf(c, run, z);
    if !IsFetching(run[z].tasks[id].pc) {
      ElsewhereStep(c, id, run[z].shared, run[z].tasks[id], o);
    }
  }

  /** Two tasks that share a fetch, at any two moments of a run, get the same answer. */
  lemma {:induction false} OneAnswerForAll(c: Config, run: seq<State>, k: nat, i: nat, m: nat, j: nat)
    requires IsRun(c, run) && k < |run| && m < |run| && i < |run[k].tasks| && j < |run[m].tasks|
    requires run[k].tasks[i].answer.Some? && run[m].tasks[j].answer.Some?
    requires SharesFetch(c, run[k].tasks[i], run[m].tasks[j])
    ensures run[k].tasks[i].answer == run[m].tasks[j].answer
  {
    KeysAgree(c, run[k].tasks[i], run[m].tasks[j]);
    KeysAgree(c, run[m].tasks[j], run[k].tasks[i]);
    if k > m {
      OneAnswerForAll(c, run, m, j, k, i);
    } else {
      FetchesInRun(c, run, k);
      FetchesInRun(c, run, m);
      assert FetchOk(c, |run[k].tasks|, run[k].shared, i, run[k].tasks[i]);
      assert FetchOk(c, |run[m].tasks|, run[m].shared, j, run[m].tasks[j]);
      ResultsStay(c, run, k, m, KeyOf(c, run[k].tasks[i]), run[k].tasks[i].answer.value);
    }
  }

  // ---------------------------------------------------------------------------------------------
  // Which search an answer comes from

  predicate IsPastSearch(pc: Pc) {
    (IsFetcher(pc) && !pc.Search?) || pc.TokenRelease?
  }

  ghost predicate SearchesOk(c: Config, n: nat, s: Shared) {
    && SharedOk(n, s)
    && (forall key :: key in s.searchUrls ==> key == KeyFor(c, s.searchUrls[key], key.username))
    && (forall key :: key in s.fetches && s.fetches[key].Filled? ==> key in s.searchUrls)
  }

  ghost predicate SearchOk(c: Config, n: nat, s: Shared, id: nat, t: Task) {
    FetchOk(c, n, s, id, t) && (IsPastSearch(t.pc) ==> KeyOf(c, t) in s.searchUrls)
  }

  lemma {:induction false} SearchedStep(c: Config, n: nat, id: nat, s: Shared, t: Task, o: Outcome)
    requires Enabled(c, s, t) && SearchOk(c, n, s, id, t) && SearchesOk(c, n, s)
    ensures var s' := NextShared(c, id, s, t, o);
      && (forall key :: key in s'.searchUrls ==> key == KeyFor(c, s'.searchUrls[key], key.username))
      && (forall key :: key in s'.fetches && s'.fetches[key].Filled? ==> key in s'.searchUrls)
      && s.searchUrls.Keys <= s'.searchUrls.Keys
      && (t.pc.Search? ==> KeyOf(c, t) in s'.searchUrls)
  {
    if !IsFetching(t.pc) {
      ElsewhereStep(c, id, s, t, o);
    }
  }

  lemma {:induction false} PastSearchStep(c: Config, s: Shared, t: Task, o: Outcome)
    requires Enabled(c, s, t) && IsPastSearch(NextTask(c, s, t, o).pc)
    ensures (t.pc.Search? || IsPastSearch(t.pc)) && KeyOf(c, NextTask(c, s, t, o)) == KeyOf(c, t)
  {
    if IsFetching(t.pc) {
      FetchingTask(c, s, t, o);
    } else {
      ElsewhereTask(c, s, t, o);
    }
  }

  lemma {:induction false} SearchesInRun(c: Config, run: seq<State>, k: nat)
    requires IsRun(c, run) && k < |run|
    ensures SearchesOk(c, |run[0].tasks|, run[k].shared)
  {
    var n := |run[0].tasks|;
    var shared: SharedInvariant := s => SearchesOk(c, n, s);
    var local: LocalInvariant := (s: Shared, id: nat, t: Task) => SearchOk(c, n, s, id, t);
    forall id: nat, s, t, o | Enabled(c, s, t) && Allowed(t, o) && shared(s) && local(s, id, t)
      ensures shared(NextShared(c, id, s, t, o)) && local(NextShared(c, id, s, t, o), id, NextTask(c, s, t, o))
    {
      OneSearchStep(c, n, id, s, t, o);
    }
    forall id: nat, s, t, o, j: nat, u |
      Enabled(c, s, t) && Allowed(t, o) && shared(s) && local(s, id, t) && j != id && local(s, j, u)
      ensures local(NextShared(c, id, s, t, o), j, u)
    {
      FetchStep(c, n, id, s, t, o);
      OthersAreUntouched(c, n, id, s, NextShared(c, id, s, t, o), j, u);
      SearchedStep(c, n, id, s, t, o);
    }
    assert HoldsIn(run[0], shared, local);
    HoldsInRun(c, run, k, shared, local);
  }

  lemma {:induction false} OneSearchStep(c: Config, n: nat, id: nat, s: Shared, t: Task, o: Outcome)
    requires Enabled(c, s, t) && SearchOk(c, n, s, id, t) && SearchesOk(c, n, s)
    ensures SearchesOk(c, n, NextShared(c, id, s, t, o))
    ensures SearchOk(c, n, NextShared(c, id, s, t, o), id, NextTask(c, s, t, o))
  {
    FetchStep(c, n, id, s, t, o);
    SearchedStep(c, n, id, s, t, o);
    if IsPastSearch(NextTask(c, s, t, o).pc) {
      PastSearchStep(c, s, t, o);
    }
  }

  /** Whoever has an answer got the published result of a search, made for a URL of the same index or realm. */
  lemma {:induction false} AnswersWereSearched(c: Config, run: seq<State>, k: nat, i: nat)
    requires IsRun(c, run) && k < |run| && i < |run[k].tasks| && run[k].tasks[i].answer.Some?
    ensures var s, t, key := run[k].shared, run[k].tasks[i], KeyOf(c, run[k].tasks[i]);
      HasSlot(s, key, Filled(t.answer.value)) && key in s.searchUrls && SharesPlace(c, s.searchUrls[key], t.job.url)
  {
    FetchesInRun(c, run, k);
    SearchesInRun(c, run, k);
    assert FetchOk(c, |run[k].tasks|, run[k].shared, i, run[k].tasks[i]);
  }

  // ---------------------------------------------------------------------------------------------
  // Progress

  /** Task `j` can take a step, or waits for the token mutex while its holder can. */
  ghost predicate CanProgress(c: Config, s: State, j: nat) {
    && j < |s.tasks|
    && (Enabled(c, s.shared, s.tasks[j])
        || (s.tasks[j].pc.TokenLock? && s.shared.holder.Some? && s.shared.holder.value < |s.tasks|
            && Enabled(c, s.shared, s.tasks[s.shared.holder.value])))
  }

  predicate RunsFetch(c: Config, s: State, j: nat, key: FetchKey) {
    j < |s.tasks| && IsFetcher(s.tasks[j].pc) && KeyOf(c, s.tasks[j]) == key
  }

  lemma {:induction false} FetcherProgresses(c: Config, s: State, j: nat)
    requires FetchesOk(c, s) && j < |s.tasks| && !s.tasks[j].pc.Ended? && !s.tasks[j].pc.Waiting?
    ensures CanProgress(c, s, j)
  {
    if s.tasks[j].pc.TokenLock? && s.shared.holder.Some? {
      var h := s.shared.holder.value;
      assert FetchOk(c, |s.tasks|, s.shared, h, s.tasks[h]);
    }
  }

  /** Whoever waits for a result waits for a task that is fetching it and that can progress. */
  lemma {:induction false} WaiterHasFetcher(c: Config, run: seq<State>, k: nat, i: nat)
    requires IsRun(c, run) && k < |run| && i < |run[k].tasks|
    requires run[k].tasks[i].pc.Waiting? && !Enabled(c, run[k].shared, run[k].tasks[i])
    ensures exists j: nat :: RunsFetch(c, run[k], j, KeyOf(c, run[k].tasks[i])) && CanProgress(c, run[k], j)
  {
    FetchesInRun(c, run, k);
    var s, key := run[k], KeyOf(c, run[k].tasks[i]);
    assert FetchOk(c, |s.tasks|, s.shared, i, s.tasks[i]);
    var j := s.shared.fetches[key].fetcher;
    assert FetchOk(c, |s.tasks|, s.shared, j, s.tasks[j]);
    assert HasSlot(s.shared, key, Running(j));
    FetcherProgresses(c, s, j);
  }

  /** While any task has not ended, some task can take a step. */
  lemma {:induction false} NoDeadlock(c: Config, run: seq<State>, k: nat, i: nat)
    requires IsRun(c, run) && k < |run| && i < |run[k].tasks| && !run[k].tasks[i].pc.Ended?
    ensures exists id: nat, o :: CanStep(c, run[k], id, o)
  {
    FetchesInRun(c, run, k);
    var j := i;
    if run[k].tasks[i].pc.Waiting? && !Enabled(c, run[k].shared, run[k].tasks[i]) {
      WaiterHasFetcher(c, run, k, i);
      j :| 0 <= j && RunsFetch(c, run[k], j, KeyOf(c, run[k].tasks[i])) && CanProgress(c, run[k], j);
    } else if !run[k].tasks[i].pc.Waiting? {
      FetcherProgresses(c, run[k], i);
    }
    var mover := if Enabled(c, run[k].shared, run[k].tasks[j]) then j else run[k].shared.holder.value;
    assert CanStep(c, run[k], mover, Outcome(None, None));
  }

  /** How many steps a task can still take at most. */
  function Rank(pc: Pc): nat {
    match pc
    case Begin => 20
    case UrlLookup => 19
    case UserFirst => 19
    case Attempt => 18
    case UserRoot => 18
    case IndexLookup => 17
    case UserUrl => 17
    case RealmLookup => 16
    case Register => 15
    case Search => 14
    case TokenLock => 13
    case TokenRead => 12
    case TokenPublish(_) => 11
    case TokenRelease(_) => 10
    case SearchStores => 10
    case Publish(_) => 9
    case Waiting => 9
    case Fetched(_) => 8
    case UserRealm => 7
    case Complete(_) => 6
    case InsertUser(_) => 5
    case InsertRealm(_) => 4
    case InsertUrl(_) => 3
    case Ended(_) => 0
  }

  lemma {:induction false} RankDecreases(c: Config, s: Shared, t: Task, o: Outcome)
    requires Enabled(c, s, t)
    ensures Rank(NextTask(c, s, t, o).pc) < Rank(t.pc)
  {
    if IsLookup(t.pc) {
      LookupTask(c, s, t);
      LookupRank(t, AfterLookup(c, s, t));
    } else if IsUserLookup(t.pc) {
      UserLookupTask(c, s, t);
      UserLookupRank(t, AfterUserLookup(c, s, t));
    } else if IsFetching(t.pc) {
      FetchingRank(c, s, t, o);
    } else {
      OtherRank(c, s, t, o);
    }
  }

  lemma {:induction false} LookupRank(t: Task, t': Task)
    requires IsLookup(t.pc) && MayFollowLookup(t, t')
    ensures Rank(t'.pc) < Rank(t.pc)
  {
  }

  lemma {:induction false} UserLookupRank(t: Task, t': Task)
    requires IsUserLookup(t.pc) && MayFollowUserLookup(t, t')
    ensures Rank(t'.pc) < Rank(t.pc)
  {
  }

  lemma {:induction false} FetchingRank(c: Config, s: Shared, t: Task, o: Outcome)
    requires Enabled(c, s, t) && IsFetching(t.pc)
    ensures Rank(AfterFetching(c, s, t, o).pc) < Rank(t.pc)
  {
  }

  lemma {:induction false} OtherRank(c: Config, s: Shared, t: Task, o: Outcome)
    requires Enabled(c, s, t) && !IsLookup(t.pc) && !IsUserLookup(t.pc) && !IsFetching(t.pc)
    ensures Rank(NextTask(c, s, t, o).pc) < Rank(t.pc)
  {
  }

  function TotalRank(tasks: seq<Task>): nat {
    if tasks == [] then 0 else Rank(tasks[0].pc) + TotalRank(tasks[1..])
  }

  lemma {:induction false} TotalRankUpdate(tasks: seq<Task>, i: nat, t: Task)
    requires i < |tasks|
    ensures TotalRank(tasks[i := t]) == TotalRank(tasks) - Rank(tasks[i].pc) + Rank(t.pc)
  {
    if i > 0 {
      assert tasks[i := t][1..] == tasks[1..][i - 1 := t];
      TotalRankUpdate(tasks[1..], i - 1, t);
    } else {
      assert tasks[i := t][1..] == tasks[1..];
    }
  }

  lemma {:induction false} RankAtStart(tasks: seq<Task>)
    requires forall i :: 0 <= i < |tasks| ==> tasks[i].pc.Begin?
    ensures TotalRank(tasks) == 20 * |tasks|
  {
    if tasks != [] {
      RankAtStart(tasks[1..]);
    }
  }

  lemma {:induction false} RankInRun(c: Config, run: seq<State>, k: nat)
    requires IsRun(c, run) && k < |run|
    ensures k + TotalRank(run[k].tasks) <= 20 * |run[0].tasks|
  {
    if k == 0 {
      RankAtStart(run[0].tasks);
    } else {
      RankInRun(c, run, k - 1);
      var id, o := StepOf(c, run, k - 1);
      RankDecreases(c, run[k - 1].shared, run[k - 1].tasks[id], o);
      TotalRankUpdate(run[k - 1].tasks, id, NextTask(c, run[k - 1].shared, run[k - 1].tasks[id], o));
    }
  }

  /**
   * Runs are finite, and one that cannot go on has finished: every task has ended and every fetch
   * that was ever registered has a result.
   */
  lemma {:induction false} EveryRunFinishes(c: Config, run: seq<State>)
    requires IsRun(c, run)
    ensures |run| <= 20 * |run[0].tasks| + 1
    ensures var last := run[|run| - 1];
      (forall id: nat, o :: !CanStep(c, last, id, o)) ==>
        && (forall i: nat :: i < |last.tasks| ==> last.tasks[i].pc.Ended?)
        && (forall key :: key in last.shared.fetches ==> last.shared.fetches[key].Filled?)
  {
    var k := |run| - 1;
    RankInRun(c, run, k);
    var last := run[k];
    if forall id: nat, o :: !CanStep(c, last, id, o) {
      forall i: nat | i < |last.tasks| ensures last.tasks[i].pc.Ended? {
        if !last.tasks[i].pc.Ended? {
          NoDeadlock(c, run, k, i);
        }
      }
      FetchesInRun(c, run, k);
      forall key | key in last.shared.fetches ensures last.shared.fetches[key].Filled? {
        if last.shared.fetches[key].Running? {
          var j := last.shared.fetches[key].fetcher;
          assert FetchOk(c, |last.tasks|, last.shared, j, last.tasks[j]);
          assert HasSlot(last.shared, key, Running(j));
        }
      }
    }
  }
}
