/**
 * What a shared search comes to, in every run: the credentials of a provider for the URL of the
 * search, or else the token where the token store knows the URL, or else what the search in the
 * stores found, and nothing in its place.
 */
module AuthResults {
  import opened Wrappers
  import opened Realm
  import opened AuthProtocol
  import opened AuthRuns
  import opened AuthFetches

  predicate HasProvider(c: Config, url: Url) {
    c.provider(url).Some?
  }

  predicate UsesToken(c: Config, url: Url) {
    c.provider(url).None? && c.hasClient && c.isKnown(url)
  }

  /** The result that a search for a URL must have, where it does not come from the stores. */
  predicate IsResult(c: Config, s: Shared, url: Url, found: Found) {
    && (HasProvider(c, url) ==> found == c.provider(url))
    && (UsesToken(c, url) ==> s.token == Initialized(found))
  }

  ghost predicate ResultsOk(c: Config, n: nat, s: Shared) {
    && SharedOk(n, s)
    && forall key :: key in s.fetches && s.fetches[key].Filled? ==>
      key in s.searchUrls && IsResult(c, s, s.searchUrls[key], s.fetches[key].result)
  }

  /** A task that fetches does so for its own URL, in the way that fits the URL. */
  predicate FetchesWell(c: Config, s: Shared, t: Task) {
    && (IsPastSearch(t.pc) ==> KeyOf(c, t) in s.searchUrls && s.searchUrls[KeyOf(c, t)] == t.job.url)
    && (t.pc.SearchStores? ==> !HasProvider(c, t.job.url) && !UsesToken(c, t.job.url))
    && (t.pc.TokenLock? || t.pc.TokenRead? ==> UsesToken(c, t.job.url))
    && (t.pc.Publish? || t.pc.TokenPublish? || t.pc.TokenRelease? ==> IsResult(c, s, t.job.url, t.pc.found))
  }

  ghost predicate ResultOk(c: Config, n: nat, s: Shared, id: nat, t: Task) {
    FetchOk(c, n, s, id, t) && FetchesWell(c, s, t)
  }

  lemma {:induction false} FetchesWellStep(c: Config, id: nat, s: Shared, t: Task, o: Outcome)
    requires Enabled(c, s, t) && IsFetching(t.pc) && FetchesWell(c, s, t)
    ensures FetchesWell(c, NextShared(c, id, s, t, o), NextTask(c, s, t, o))
  {
    FetchingTask(c, s, t, o);
  }

  lemma {:induction false} FetchesNothing(c: Config, s: Shared, t: Task, o: Outcome, s': Shared)
    requires Enabled(c, s, t) && !IsFetching(t.pc)
    ensures FetchesWell(c, s', NextTask(c, s, t, o))
  {
    ElsewhereTask(c, s, t, o);
  }

  /** What is searched for stays, except by the one who searches; what the token is stays. */
  ghost predicate KeepsSearches(id: nat, s: Shared, s': Shared) {
    && (forall key :: key in s.searchUrls && !HasSlot(s, key, Running(id)) ==>
         key in s'.searchUrls && s'.searchUrls[key] == s.searchUrls[key])
    && (s.token.Initialized? ==> s'.token == s.token)
  }

  lemma {:induction false} SearchesAreKept(c: Config, n: nat, id: nat, s: Shared, t: Task, o: Outcome)
    requires Enabled(c, s, t) && FetchOk(c, n, s, id, t)
    ensures KeepsSearches(id, s, NextShared(c, id, s, t, o))
  {
    if !IsFetching(t.pc) {
      ElsewhereStep(c, id, s, t, o);
    } else if t.pc.Search? {
      assert HasSlot(s, KeyOf(c, t), Running(id));
    }
  }

  /** A slot that is filled after a step was filled before, or is filled by it. */
  lemma {:induction false} WhatIsFilled(c: Config, id: nat, s: Shared, t: Task, o: Outcome, key: FetchKey)
    requires Enabled(c, s, t)
    requires var s' := NextShared(c, id, s, t, o); key in s'.fetches && s'.fetches[key].Filled?
    ensures var s' := NextShared(c, id, s, t, o);
      || HasSlot(s, key, s'.fetches[key])
      || ((t.pc.Publish? || t.pc.TokenPublish?) && key == KeyOf(c, t) && s'.fetches[key] == Filled(t.pc.found)
          && s'.searchUrls == s.searchUrls && s'.token == s.token)
  {
    if !IsFetching(t.pc) {
      ElsewhereStep(c, id, s, t, o);
    }
  }

  lemma {:induction false} ResultStep(c: Config, n: nat, id: nat, s: Shared, t: Task, o: Outcome)
    requires Enabled(c, s, t) && ResultsOk(c, n, s) && ResultOk(c, n, s, id, t)
    ensures ResultsOk(c, n, NextShared(c, id, s, t, o))
    ensures ResultOk(c, n, NextShared(c, id, s, t, o), id, NextTask(c, s, t, o))
  {
    var s' := NextShared(c, id, s, t, o);
    FetchStep(c, n, id, s, t, o);
    SearchesAreKept(c, n, id, s, t, o);
    forall key | key in s'.fetches && s'.fetches[key].Filled?
      ensures key in s'.searchUrls && IsResult(c, s', s'.searchUrls[key], s'.fetches[key].result)
    {
      WhatIsFilled(c, id, s, t, o, key);
    }
    if IsFetching(t.pc) {
      FetchesWellStep(c, id, s, t, o);
    } else {
      FetchesNothing(c, s, t, o, s');
    }
  }

  lemma {:induction false} OthersFetchWell(c: Config, n: nat, id: nat, s: Shared, s': Shared, j: nat, u: Task)
    requires ResultOk(c, n, s, j, u) && j != id && KeepsSearches(id, s, s') && Touches(id, s, s')
    ensures ResultOk(c, n, s', j, u)
  {
    OthersAreUntouched(c, n, id, s, s', j, u);
    if IsPastSearch(u.pc) && !u.pc.TokenRelease? {
      assert HasSlot(s, KeyOf(c, u), Running(j));
    }
  }

  lemma {:induction false} ResultsInRun(c: Config, run: seq<State>, k: nat)
    requires IsRun(c, run) && k < |run|
    ensures ResultsOk(c, |run[0].tasks|, run[k].shared)
  {
    var n := |run[0].tasks|;
    var shared: SharedInvariant := s => ResultsOk(c, n, s);
    var local: LocalInvariant := (s: Shared, id: nat, t: Task) => ResultOk(c, n, s, id, t);
    forall id: nat, s, t, o | Enabled(c, s, t) && Allowed(t, o) && shared(s) && local(s, id, t)
      ensures shared(NextShared(c, id, s, t, o)) && local(NextShared(c, id, s, t, o), id, NextTask(c, s, t, o))
    {
      ResultStep(c, n, id, s, t, o);
    }
    forall id: nat, s, t, o, j: nat, u |
      Enabled(c, s, t) && Allowed(t, o) && shared(s) && local(s, id, t) && j != id && local(s, j, u)
      ensures local(NextShared(c, id, s, t, o), j, u)
    {
      FetchStep(c, n, id, s, t, o);
      SearchesAreKept(c, n, id, s, t, o);
      OthersFetchWell(c, n, id, s, NextShared(c, id, s, t, o), j, u);
    }
    assert HoldsIn(run[0], shared, local);
    HoldsInRun(c, run, k, shared, local);
  }

  /**
   * Whoever has an answer has what the provider gives for the URL that was searched for, or else
   * the one token if the token store knows that URL.
   */
  lemma {:induction false} AnswersAreResults(c: Config, run: seq<State>, k: nat, i: nat)
    requires IsRun(c, run) && k < |run| && i < |run[k].tasks| && run[k].tasks[i].answer.Some?
    ensures var s, found, key := run[k].shared, run[k].tasks[i].answer.value, KeyOf(c, run[k].tasks[i]);
      && key in s.searchUrls && var url := s.searchUrls[key];
      && (c.provider(url).Some? ==> found == c.provider(url))
      && (c.provider(url).None? && c.hasClient && c.isKnown(url) ==> s.token == Initialized(found))
  {
    ResultsInRun(c, run, k);
    AnswersWereSearched(c, run, k, i);
  }

  // ---------------------------------------------------------------------------------------------
  // What the outside answers

  predicate IsPublished(s: State, id: nat, key: FetchKey, c: Config, found: Found) {
    || (id < |s.tasks| && s.tasks[id].pc == Publish(found) && KeyOf(c, s.tasks[id]) == key)
    || HasSlot(s.shared, key, Filled(found))
  }

  lemma {:induction false} PublishedNext(c: Config, run: seq<State>, x: nat, id: nat, key: FetchKey, found: Found)
    requires IsRun(c, run) && x + 1 < |run| && IsPublished(run[x], id, key, c, found)
    ensures IsPublished(run[x + 1], id, key, c, found)
  {
    if HasSlot(run[x].shared, key, Filled(found)) {
      ResultStays(c, run, x, key, found);
    } else {
      var mover, o := StepOf(c, run, x);
    }
  }

  /** What a search in the stores finds is the answer of everyone who asks for its key, at any time. */
  lemma {:induction false} OutcomeIsAnswer(c: Config, run: seq<State>, x: nat, id: nat, o: Outcome, m: nat, j: nat)
    requires IsRun(c, run) && x + 1 < |run| && CanStep(c, run[x], id, o) && run[x + 1] == Next(c, run[x], id, o)
    requires run[x].tasks[id].pc.SearchStores?
    requires m < |run| && j < |run[m].tasks| && run[m].tasks[j].answer.Some?
    requires KeyOf(c, run[m].tasks[j]) == KeyOf(c, run[x].tasks[id])
    ensures x < m && run[m].tasks[j].answer == Some(o.found)
  {
    var key := KeyOf(c, run[x].tasks[id]);
    FetchesInRun(c, run, m);
    FetchesInRun(c, run, x);
    assert FetchOk(c, |run[m].tasks|, run[m].shared, j, run[m].tasks[j]);
    assert FetchOk(c, |run[x].tasks|, run[x].shared, id, run[x].tasks[id]);
    assert HasSlot(run[x].shared, key, Running(id));
    if m <= x {
      ResultsStay(c, run, m, x, key, run[m].tasks[j].answer.value);
    } else {
      forall y: nat | x + 1 <= y < m && IsPublished(run[y], id, key, c, o.found)
        ensures IsPublished(run[y + 1], id, key, c, o.found)
      {
        PublishedNext(c, run, y, id, key, o.found);
      }
      Onwards(run, x + 1, m, (s: State) => IsPublished(s, id, key, c, o.found));
      JobsAreFixed(c, run, x);
      JobsAreFixed(c, run, m);
      assert FetchOk(c, |run[m].tasks|, run[m].shared, id, run[m].tasks[id]);
      assert !HasSlot(run[m].shared, key, Running(id));
    }
  }

  /** The token that was read first is the token for ever. */
  lemma {:induction false} TokenStays(c: Config, run: seq<State>, x: nat, id: nat, o: Outcome, m: nat)
    requires IsRun(c, run) && x < m < |run| && CanStep(c, run[x], id, o) && run[x + 1] == Next(c, run[x], id, o)
    requires run[x].tasks[id].pc.TokenRead? && run[x].shared.token.Uninitialized?
    ensures run[m].shared.token == Initialized(o.found)
  {
    forall y: nat | x + 1 <= y < m && run[y].shared.token == Initialized(o.found)
      ensures run[y + 1].shared.token == Initialized(o.found)
    {
      TokenNext(c, run, y);
    }
    Onwards(run, x + 1, m, (s: State) => s.shared.token == Initialized(o.found));
  }

  lemma {:induction false} TokenNext(c: Config, run: seq<State>, y: nat)
    requires IsRun(c, run) && y + 1 < |run| && run[y].shared.token.Initialized?
    ensures run[y + 1].shared.token == run[y].shared.token
  {
    var id, o := StepOf(c, run, y);
    FetchesInRun(c, run, y);
    assert FetchOk(c, |run[y].tasks|, run[y].shared, id, run[y].tasks[id]);
    SearchesAreKept(c, |run[y].tasks|, id, run[y].shared, run[y].tasks[id], o);
  }
}
