/**
 * What gets into the cache, in every run: a task whose credentials were accepted writes them for
 * its realm and its URL before it ends, nothing else is ever written, and the history of the shared
 * state that the other modules speak of is the history of what each task did.
 */
module AuthWrites {
  import opened Wrappers
  import opened Realm
  import opened UrlTrie
  import opened CredentialsCache
  import opened AuthProtocol
  import opened AuthRuns
  import opened AuthSends
  import opened AuthHistory
  import opened AuthUsers
  import opened AuthLookups

  // ---------------------------------------------------------------------------------------------
  // One write

  /** Credentials that authenticate are stored at the key, and a mere username where it costs no password. */
  predicate Stores(before: RealmMap, after: RealmMap, key: RealmKey, a: Authentication) {
    after == if IsAuthenticated(a) || key !in before || PasswordOf(before[key]).None? then before[key := a] else before
  }

  /** What one of the three writes does: to the entry of the user, of the realm, and of the URL. */
  predicate IsWrite(s: Shared, s': Shared, url: Url, pc: Pc) {
    match pc
    case InsertUser(a) =>
      && s'.urls == s.urls
      && (if UserOf(a).Some? then Stores(s.realms, s'.realms, RealmKey(RealmOf(url), UserOf(a)), a)
          else s'.realms == s.realms)
    case InsertRealm(a) => s'.urls == s.urls && Stores(s.realms, s'.realms, RealmKey(RealmOf(url), None), a)
    case InsertUrl(a) => s'.realms == s.realms && s'.urls == s.urls[Components(url) := a]
    case _ => false
  }

  lemma {:induction false} InsertingWrites(c: Config, id: nat, s: Shared, t: Task, o: Outcome)
    requires Enabled(c, s, t) && IsInserting(t.pc) && !IsEmpty(t.pc.auth)
    ensures IsWrite(s, NextShared(c, id, s, t, o), t.job.url, t.pc)
  {
    EmptyIff(t.pc.auth);
  }

  lemma {:induction false} EmptyIsIgnored(c: Config, id: nat, s: Shared, t: Task, o: Outcome)
    requires Enabled(c, s, t) && (IsInserting(t.pc) ==> t.pc.InsertUser? && IsEmpty(t.pc.auth))
    ensures var s' := NextShared(c, id, s, t, o); s'.realms == s.realms && s'.urls == s.urls
  {
    if IsInserting(t.pc) {
      EmptyIff(t.pc.auth);
    }
  }

  /** In a run, such a step with credentials that authenticate leaves exactly these in the realm map. */
  lemma {:induction false} StepStores(c: Config, run: seq<State>, k: nat, id: nat, o: Outcome, a: Authentication)
    requires IsRun(c, run) && k + 1 < |run| && CanStep(c, run[k], id, o) && run[k + 1] == Next(c, run[k], id, o)
    requires IsAuthenticated(a)
    ensures var realms, realms', t := run[k].shared.realms, run[k + 1].shared.realms, run[k].tasks[id];
      && (t.pc == InsertUser(a) && UserOf(a).Some? ==> realms' == realms[RealmKey(RealmOf(t.job.url), UserOf(a)) := a])
      && (t.pc == InsertRealm(a) ==> realms' == realms[RealmKey(RealmOf(t.job.url), None) := a])
  {
    WritesStore(run[k].shared.realms, RealmOf(run[k].tasks[id].job.url), a);
  }

  // ---------------------------------------------------------------------------------------------
  // What a task means to write

  /** A store always succeeds, and a request if its last response is no error. */
  predicate Succeeded(t: Task) {
    t.job.Store? ||
    (t.sends != [] &&
     var status := t.sends[|t.sends| - 1].status; status.Some? && !(400 <= status.value < 600))
  }

  predicate MeansToWrite(c: Config, t: Task, a: Authentication) {
    PutForward(c, t) == Some(a) && Succeeded(t)
  }

  /** What is known of a task from its kind. */
  predicate IsAccounted(c: Config, t: Task) {
    && (IsBare(c, t) ==> HistoryOk(c, t)) && (IsUserRequest(c, t) ==> UserHistoryOk(c, t))
    && (IsOwnRequest(c, t) ==> OwnHistoryOk(c, t))
    && (t.job.Store? ==> t.pc.Begin? || IsInserting(t.pc) || t.pc.Ended?)
  }

  lemma {:induction false} AccountedInRun(c: Config, run: seq<State>, k: nat, i: nat)
    requires IsRun(c, run) && k < |run| && i < |run[k].tasks|
    ensures IsAccounted(c, run[k].tasks[i])
  {
    if IsBare(c, run[k].tasks[i]) {
      BareInRun(c, run, k, i);
    } else if IsUserRequest(c, run[k].tasks[i]) {
      UserInRun(c, run, k, i);
    } else if IsOwnRequest(c, run[k].tasks[i]) {
      OwnInRun(c, run, k, i);
    }
    EveryTaskSendsWell(c, run, k, i);
  }

  lemma {:induction false} KindsOfTasks(c: Config, t: Task)
    ensures t.job.Store? || IsBare(c, t) || IsUserRequest(c, t) || IsOwnRequest(c, t)
  {
  }

  /** What a request completes with is what it puts forward. */
  lemma {:induction false} CompletesWithPutForward(c: Config, t: Task)
    requires IsAccounted(c, t) && t.pc.Complete?
    ensures t.pc.insert == PutForward(c, t)
  {
    KindsOfTasks(c, t);
  }

  /** A request that ends before it completes puts nothing forward. */
  lemma {:induction false} EndsWithNothing(c: Config, t: Task, status: Option<nat>)
    requires IsAccounted(c, t)
    ensures t.pc.Attempt? && AfterAttempt(c, t, status).pc.Ended? ==> PutForward(c, AfterAttempt(c, t, status)).None?
    ensures t.pc.Fetched? && AfterFetch(c, t, t.pc.found).pc.Ended? ==>
      PutForward(c, AfterFetch(c, t, t.pc.found)).None?
  {
    KindsOfTasks(c, t);
  }

  /** The steps of `complete_request` and of an insertion, and where they begin. */
  lemma {:induction false} CompleteMeans(c: Config, t: Task, status: Option<nat>)
    requires IsAccounted(c, t) && t.pc.Complete?
    ensures var t' := AfterComplete(c, t, t.pc.insert, status);
      && (IsInserting(t'.pc) ==> t'.pc.InsertUser? && MeansToWrite(c, t', t'.pc.auth))
      && (t'.pc.Ended? ==> PutForward(c, t').None? || !Succeeded(t'))
  {
    CompletesWithPutForward(c, t);
    KindsOfTasks(c, t);
  }

  // ---------------------------------------------------------------------------------------------
  // Every run

  /** Before state `m`, task `i` made the write, and the cache changed accordingly. */
  ghost predicate HasWritten(run: seq<State>, m: nat, i: nat, pc: Pc) {
    exists x: nat :: x < m && LooksAt(run, x, i, pc)
                     && IsWrite(run[x].shared, run[x + 1].shared, run[x].tasks[i].job.url, pc)
  }

  type Writes = Pc -> bool

  ghost function WritesOf(run: seq<State>, m: nat, i: nat): Writes {
    (pc: Pc) => HasWritten(run, m, i, pc)
  }

  ghost predicate Adds(written: Writes, written': Writes) {
    forall pc :: written(pc) ==> written'(pc)
  }

  /** Credentials that were put forward and accepted are written three times before a task ends. */
  ghost predicate WritesOk(c: Config, t: Task, written: Writes) {
    && (IsInserting(t.pc) ==> MeansToWrite(c, t, t.pc.auth))
    && (t.pc.InsertRealm? || t.pc.InsertUrl? ==> !IsEmpty(t.pc.auth) && written(InsertUser(t.pc.auth)))
    && (t.pc.InsertUrl? ==> written(InsertRealm(t.pc.auth)))
    && (t.pc.Ended? ==> forall a :: MeansToWrite(c, t, a) && !IsEmpty(a) ==>
         written(InsertUser(a)) && written(InsertRealm(a)) && written(InsertUrl(a)))
  }

  lemma {:induction false} InsertsOk(c: Config, t: Task, written: Writes, written': Writes)
    requires IsInserting(t.pc) && WritesOk(c, t, written) && Adds(written, written')
    requires !IsEmpty(t.pc.auth) ==> written'(t.pc)
    ensures WritesOk(c, AfterInserting(t), written')
  {
    var t' := AfterInserting(t);
    assert PutForward(c, t') == PutForward(c, t) && Succeeded(t') == Succeeded(t);
  }

  /** Only the beginning of a store and the end of a request lead to an insertion or to the end. */
  lemma {:induction false} OthersWriteNothing(c: Config, s: Shared, t: Task, o: Outcome)
    requires Enabled(c, s, t) && (Looks(t.pc) || IsFetching(t.pc))
    ensures !IsInserting(NextTask(c, s, t, o).pc) && !NextTask(c, s, t, o).pc.Ended?
  {
    if IsLookup(t.pc) {
      LookupTask(c, s, t);
    } else if IsUserLookup(t.pc) {
      UserLookupTask(c, s, t);
    } else {
      FetchingTask(c, s, t, o);
    }
  }

  lemma {:induction false} WriteStep(c: Config, s: Shared, t: Task, o: Outcome, written: Writes, written': Writes)
    requires Enabled(c, s, t) && IsAccounted(c, t) && WritesOk(c, t, written)
    requires Adds(written, written') && (IsInserting(t.pc) && !IsEmpty(t.pc.auth) ==> written'(t.pc))
    ensures WritesOk(c, NextTask(c, s, t, o), written')
  {
    if Looks(t.pc) || IsFetching(t.pc) {
      OthersWriteNothing(c, s, t, o);
    } else if IsInserting(t.pc) {
      InsertsOk(c, t, written, written');
    } else if t.pc.Complete? {
      CompleteMeans(c, t, o.status);
    } else {
      EndsWithNothing(c, t, o.status);
    }
  }

  lemma {:induction false} WritesAdd(run: seq<State>, m: nat, i: nat)
    ensures Adds(WritesOf(run, m, i), WritesOf(run, m + 1, i))
  {
    forall pc | HasWritten(run, m, i, pc) ensures HasWritten(run, m + 1, i, pc) {
      var x: nat :| x < m && LooksAt(run, x, i, pc)
                    && IsWrite(run[x].shared, run[x + 1].shared, run[x].tasks[i].job.url, pc);
    }
  }

  lemma {:induction false} WritesNext(c: Config, run: seq<State>, m: nat, i: nat, o: Outcome)
    requires m + 1 < |run| && CanStep(c, run[m], i, o) && run[m + 1] == Next(c, run[m], i, o)
    requires IsAccounted(c, run[m].tasks[i])
    requires WritesOk(c, run[m].tasks[i], WritesOf(run, m, i))
    ensures WritesOk(c, run[m + 1].tasks[i], WritesOf(run, m + 1, i))
  {
    var t := run[m].tasks[i];
    WritesAdd(run, m, i);
    if IsInserting(t.pc) && !IsEmpty(t.pc.auth) {
      InsertingWrites(c, i, run[m].shared, t, o);
      assert LooksAt(run, m, i, t.pc);
      assert HasWritten(run, m + 1, i, t.pc);
    }
    WriteStep(c, run[m].shared, t, o, WritesOf(run, m, i), WritesOf(run, m + 1, i));
  }

  lemma {:induction false} WritesInRun(c: Config, run: seq<State>, m: nat, i: nat)
    requires IsRun(c, run) && m < |run| && i < |run[m].tasks|
    ensures WritesOk(c, run[m].tasks[i], WritesOf(run, m, i))
  {
    JobsAreFixed(c, run, m);
    if m == 0 {
      assert IsFreshTask(run[0].tasks[i]);
    } else {
      JobsAreFixed(c, run, m - 1);
      WritesInRun(c, run, m - 1, i);
      var id, o := StepOf(c, run, m - 1);
      if id == i {
        AccountedInRun(c, run, m - 1, i);
        WritesNext(c, run, m - 1, i, o);
      } else {
        WritesAdd(run, m - 1, i);
      }
    }
  }

  /**
   * Credentials that a task puts forward and that are accepted are in the cache when it ends: it
   * wrote them for their user, for the realm and for the URL.
   */
  lemma {:induction false} AcceptedIsStored(c: Config, run: seq<State>, m: nat, i: nat, a: Authentication)
    requires IsRun(c, run) && m < |run| && i < |run[m].tasks|
    requires run[m].tasks[i].pc.Ended? && MeansToWrite(c, run[m].tasks[i], a) && !IsEmpty(a)
    ensures HasWritten(run, m, i, InsertUser(a)) && HasWritten(run, m, i, InsertRealm(a))
    ensures HasWritten(run, m, i, InsertUrl(a))
  {
    WritesInRun(c, run, m, i);
    var written := WritesOf(run, m, i);
    assert written(InsertUser(a)) && written(InsertRealm(a)) && written(InsertUrl(a));
  }

  /** Nothing else changes the cache: what a step writes was put forward by its task and accepted. */
  lemma {:induction false} WritesAreMeant(c: Config, run: seq<State>, k: nat, id: nat, o: Outcome)
    requires IsRun(c, run) && k + 1 < |run| && CanStep(c, run[k], id, o) && run[k + 1] == Next(c, run[k], id, o)
    ensures var s, s', t := run[k].shared, run[k + 1].shared, run[k].tasks[id];
      || (s'.realms == s.realms && s'.urls == s.urls)
      || (IsInserting(t.pc) && MeansToWrite(c, t, t.pc.auth) && IsWrite(s, s', t.job.url, t.pc))
  {
    var t := run[k].tasks[id];
    WritesInRun(c, run, k, id);
    if IsInserting(t.pc) && !IsEmpty(t.pc.auth) {
      InsertingWrites(c, id, run[k].shared, t, o);
    } else {
      EmptyIsIgnored(c, id, run[k].shared, t, o);
    }
  }

  /** A password that was accepted once stays in the realm map for its user, or is replaced by another. */
  lemma {:induction false} PasswordIsThere(c: Config, run: seq<State>, k: nat, i: nat, a: Authentication)
    requires IsRun(c, run) && k < |run| && i < |run[k].tasks|
    requires run[k].tasks[i].pc.Ended? && MeansToWrite(c, run[k].tasks[i], a)
    requires UserOf(a).Some? && PasswordOf(a).Some?
    ensures var realms, key := run[k].shared.realms, RealmKey(RealmOf(run[k].tasks[i].job.url), UserOf(a));
      key in realms && PasswordOf(realms[key]).Some?
  {
    EmptyIff(a);
    AcceptedIsStored(c, run, k, i, a);
    var x: nat :| x < k && LooksAt(run, x, i, InsertUser(a))
                  && IsWrite(run[x].shared, run[x + 1].shared, run[x].tasks[i].job.url, InsertUser(a));
    JobsAreFixed(c, run, x);
    JobsAreFixed(c, run, k);
    PasswordsStay(c, run, x + 1, k);
    var key := RealmKey(RealmOf(run[k].tasks[i].job.url), UserOf(a));
    assert key in run[x + 1].shared.realms && run[x + 1].shared.realms[key] == a;
  }

  /**
   * So a password that was accepted once is used by name: every later request without an index in
   * that realm which names the user is sent once, with a password of that user, and never searches.
   */
  lemma {:induction false} AcceptedIsUsedByName(c: Config, run: seq<State>, k: nat, m: nat, i: nat, j: nat,
                                                a: Authentication)
    requires IsRun(c, run) && k <= m < |run| && i < |run[k].tasks| && j < |run[k].tasks|
    requires run[k].tasks[i].pc.Ended? && MeansToWrite(c, run[k].tasks[i], a)
    requires UserOf(a).Some? && PasswordOf(a).Some?
    requires IsUserRequest(c, run[k].tasks[j]) && !HasIndex(c, run[k].tasks[j]) && IsBeforeFirst(run[k].tasks[j].pc)
    requires UserOf(run[k].tasks[j].job.header.auth) == UserOf(a)
    requires RealmOf(run[k].tasks[j].job.url) == RealmOf(run[k].tasks[i].job.url)
    ensures |run[m].tasks| == |run[k].tasks|
    ensures var t := run[m].tasks[j];
      IsBeforeFirst(t.pc) ||
      (t.elsewhere.Some? && UserOf(t.elsewhere.value) == UserOf(a) && PasswordOf(t.elsewhere.value).Some?
       && WasSentWith(t, t.elsewhere.value))
  {
    PasswordIsThere(c, run, k, i, a);
    NamedUsesRealm(c, run, k, m, j);
  }

  // ---------------------------------------------------------------------------------------------
  // The history of the shared state

  predicate WasStored(t: Task, origin: Origin) {
    t.job.Store? && t.job.auth == origin.auth && RealmOf(t.job.url) == origin.realm
  }

  /** Some response to a request with these credentials was no error. */
  ghost predicate WasAccepted(t: Task, origin: Origin) {
    && RealmOf(t.job.url) == origin.realm
    && exists n: nat ::
      && n < |t.sends| && t.sends[n].header == Carries(origin.auth)
      && t.sends[n].status.Some? && !(400 <= t.sends[n].status.value < 600)
  }

  ghost predicate HasSource(s: State, origin: Origin) {
    && (origin in s.shared.stored ==> exists i: nat :: i < |s.tasks| && WasStored(s.tasks[i], origin))
    && (origin in s.shared.accepted ==> exists i: nat :: i < |s.tasks| && WasAccepted(s.tasks[i], origin))
  }

  lemma {:induction false} SendsGrow(c: Config, s: Shared, t: Task, o: Outcome)
    requires Enabled(c, s, t)
    ensures t.sends <= NextTask(c, s, t, o).sends && NextTask(c, s, t, o).job == t.job
  {
    if IsLookup(t.pc) {
      LookupTask(c, s, t);
    } else if IsUserLookup(t.pc) {
      UserLookupTask(c, s, t);
    } else if IsFetching(t.pc) {
      FetchingTask(c, s, t, o);
    }
  }

  lemma {:induction false} AcceptAdds(s: Shared, t: Task, t': Task, status: Option<nat>, pc: Pc, origin: Origin)
    requires t' == Sent(t, status, pc) || (t'.sends == t.sends && t'.job == t.job)
    requires origin in Accept(s, t, t').accepted && origin !in s.accepted
    ensures WasAccepted(t', origin)
  {
    assert t'.sends[|t.sends|] == Send(t.header, status);
  }

  lemma {:induction false} SourceStep(c: Config, id: nat, s: Shared, t: Task, o: Outcome, origin: Origin)
    requires Enabled(c, s, t)
    ensures var s', t' := NextShared(c, id, s, t, o), NextTask(c, s, t, o);
      && (origin in s'.stored ==> origin in s.stored || WasStored(t', origin))
      && (origin in s'.accepted ==> origin in s.accepted || WasAccepted(t', origin))
  {
    var s', t' := NextShared(c, id, s, t, o), NextTask(c, s, t, o);
    if origin in s'.accepted && origin !in s.accepted {
      OnlySendsAccept(c, id, s, t, o);
      AcceptAdds(s, t, t', o.status, t'.pc, origin);
    }
  }

  lemma {:induction false} OnlySendsAccept(c: Config, id: nat, s: Shared, t: Task, o: Outcome)
    requires Enabled(c, s, t) && NextShared(c, id, s, t, o).accepted != s.accepted
    ensures var t' := NextTask(c, s, t, o);
      && (t' == Sent(t, o.status, t'.pc) || (t'.sends == t.sends && t'.job == t.job))
      && NextShared(c, id, s, t, o) == Accept(s, t, t')
  {
    assert t.pc.Attempt? || t.pc.Complete?;
  }

  /** What counts as known in a realm was stored by a task, or accepted with a request of one. */
  lemma {:induction false} KnownHasSource(c: Config, run: seq<State>, k: nat, origin: Origin)
    requires IsRun(c, run) && k < |run|
    ensures HasSource(run[k], origin)
  {
    if k > 0 {
      KnownHasSource(c, run, k - 1, origin);
      var id, o := StepOf(c, run, k - 1);
      SourceStep(c, id, run[k - 1].shared, run[k - 1].tasks[id], o, origin);
      SendsGrow(c, run[k - 1].shared, run[k - 1].tasks[id], o);
      SourceStays(run[k - 1], run[k], id, origin);
    }
  }

  lemma {:induction false} SourceStays(s: State, s': State, id: nat, origin: Origin)
    requires HasSource(s, origin) && id < |s.tasks| && id < |s'.tasks| && s'.tasks == s.tasks[id := s'.tasks[id]]
    requires s.tasks[id].sends <= s'.tasks[id].sends && s'.tasks[id].job == s.tasks[id].job
    requires origin in s'.shared.stored ==> origin in s.shared.stored || WasStored(s'.tasks[id], origin)
    requires origin in s'.shared.accepted ==> origin in s.shared.accepted || WasAccepted(s'.tasks[id], origin)
    ensures HasSource(s', origin)
  {
    if origin in s.shared.stored {
      var i: nat :| i < |s.tasks| && WasStored(s.tasks[i], origin);
      assert WasStored(s'.tasks[i], origin);
    }
    if origin in s.shared.accepted {
      var i: nat :| i < |s.tasks| && WasAccepted(s.tasks[i], origin);
      var n: nat :|
        && n < |s.tasks[i].sends| && s.tasks[i].sends[n].header == Carries(origin.auth)
        && s.tasks[i].sends[n].status.Some? && !(400 <= s.tasks[i].sends[n].status.value < 600);
      assert s'.tasks[i].sends[n] == s.tasks[i].sends[n];
      assert WasAccepted(s'.tasks[i], origin);
    }
  }
}
