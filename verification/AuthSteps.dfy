/**
 * Building runs of the authentication protocol step by step, to show what can happen.
 */
module AuthSteps {
  import opened Wrappers
  import opened Realm
  import opened UrlTrie
  import opened CredentialsCache
  import opened AuthProtocol

  function Last(run: seq<State>): State
    requires run != []
  {
    run[|run| - 1]
  }

  /** One more step of task `id`, which leads to the shared state and task given. */
  lemma {:induction false} Move(c: Config, run: seq<State>, id: nat, o: Outcome, s': Shared, t': Task)
    returns (run': seq<State>)
    requires IsRun(c, run) && CanStep(c, Last(run), id, o)
    requires s' == NextShared(c, id, Last(run).shared, Last(run).tasks[id], o)
    requires t' == NextTask(c, Last(run).shared, Last(run).tasks[id], o)
    ensures IsRun(c, run') && run <= run' && Last(run') == State(s', Last(run).tasks[id := t'])
  {
    run' := run + [Next(c, Last(run), id, o)];
    forall k: nat | k + 1 < |run'| ensures IsStepAt(c, run', k) {
      assert run'[k] == run[k];
      if k + 1 < |run| {
        assert IsStepAt(c, run, k);
      } else {
        assert IsStep(c, Last(run), Next(c, Last(run), id, o));
      }
    }
  }

  function Page(name: string): Url {
    Url("https", Some("h"), None, [name])
  }

  function FreshTask(job: Job): Task {
    Task(job, Begin, if job.Handle? then job.header else Bare, None, false, None, [], None, None, None)
  }

  function Empty(): Shared {
    Shared(map[], map[], map[], Uninitialized, None, [], map[], 0, {}, {})
  }

  lemma {:induction false} StartRun(c: Config, tasks: seq<Task>) returns (run: seq<State>)
    requires ValidConfig(c) && forall i :: 0 <= i < |tasks| ==> IsFreshTask(tasks[i])
    ensures IsRun(c, run) && Last(run) == State(Empty(), tasks)
  {
    run := [State(Empty(), tasks)];
  }

  /** The end of a run: the shared state, the number of tasks, and one of them. */
  predicate EndsAt(run: seq<State>, s: Shared, n: nat, id: nat, t: Task) {
    run != [] && Last(run).shared == s && |Last(run).tasks| == n && id < n && Last(run).tasks[id] == t
  }

  /** The run goes on, and task `id` is the only one that has changed. */
  predicate OnlyMoved(run: seq<State>, run': seq<State>, id: nat) {
    && run != [] && run <= run' && |Last(run').tasks| == |Last(run).tasks|
    && forall j :: 0 <= j < |Last(run).tasks| && j != id ==> Last(run').tasks[j] == Last(run).tasks[j]
  }

  /** Two steps of one task, through a state in between. */
  lemma {:induction false} MoveTwice(c: Config, run: seq<State>, id: nat, o: Outcome, s: Shared, t: Task, s1: Shared,
                                     t1: Task, s2: Shared, t2: Task)
    returns (run': seq<State>)
    requires IsRun(c, run) && id < |Last(run).tasks| && Last(run).shared == s && Last(run).tasks[id] == t
    requires Enabled(c, s, t) && Allowed(t, o) && s1 == NextShared(c, id, s, t, o) && t1 == NextTask(c, s, t, o)
    requires Enabled(c, s1, t1) && Allowed(t1, o) && s2 == NextShared(c, id, s1, t1, o) && t2 == NextTask(c, s1, t1, o)
    ensures IsRun(c, run') && EndsAt(run', s2, |Last(run).tasks|, id, t2) && OnlyMoved(run, run', id)
  {
    run' := Move(c, run, id, o, s1, t1);
    run' := Move(c, run', id, o, s2, t2);
  }

  /** Storing credentials, up to the end. */
  lemma {:induction false} StoreRun(c: Config, run: seq<State>, id: nat, url: Url, a: Authentication)
    returns (run': seq<State>)
    requires IsRun(c, run) && id < |Last(run).tasks| && Last(run).tasks[id] == FreshTask(Store(url, a)) && !IsEmpty(a)
    ensures IsRun(c, run') && OnlyMoved(run, run', id)
    ensures var s, s' := Last(run).shared, Last(run').shared;
      && s'.realms == WithRealm(WithUser(s.realms, RealmOf(url), a), RealmKey(RealmOf(url), None), a)
      && s'.urls == s.urls[Components(url) := a] && s'.fetches == s.fetches
  {
    var o, s, t := Outcome(None, None), Last(run).shared, Last(run).tasks[id];
    var s1 := s.(stored := s.stored + {Origin(RealmOf(url), a)});
    var s2 := s1.(realms := WithUser(s.realms, RealmOf(url), a));
    run' := MoveTwice(c, run, id, o, s, t, s1, t.(pc := InsertUser(a)), s2, t.(pc := InsertRealm(a)));
    run' := StoreRest(c, run', id, s2, t, url, a);
  }

  lemma {:induction false} StoreRest(c: Config, run: seq<State>, id: nat, s: Shared, t: Task, url: Url,
                                     a: Authentication)
    returns (run': seq<State>)
    requires IsRun(c, run) && EndsAt(run, s, |Last(run).tasks|, id, t.(pc := InsertRealm(a)))
    requires t == FreshTask(Store(url, a))
    ensures IsRun(c, run') && OnlyMoved(run, run', id)
    ensures var realms := WithRealm(s.realms, RealmKey(RealmOf(url), None), a);
      Last(run').shared == s.(realms := realms, urls := s.urls[Components(url) := a])
  {
    var o := Outcome(None, None);
    var s1 := s.(realms := WithRealm(s.realms, RealmKey(RealmOf(url), None), a));
    var s2 := s1.(urls := s.urls[Components(url) := a]);
    run' := MoveTwice(c, run, id, o, s, t.(pc := InsertRealm(a)), s1, t.(pc := InsertUrl(a)),
                      s2, t.(pc := Ended(None)));
  }
}
