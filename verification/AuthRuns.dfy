/**
 * The proof principle for runs of the authentication protocol. An invariant is a condition on the
 * shared state together with one condition for each task, and holds throughout if the step of a
 * task keeps the shared condition, its own condition and that of every other task.
 */
module AuthRuns {
  import opened Wrappers
  import opened AuthProtocol

  type SharedInvariant = Shared -> bool
  type LocalInvariant = (Shared, nat, Task) -> bool

  ghost predicate KeepsOwn(c: Config, shared: SharedInvariant, local: LocalInvariant) {
    forall id: nat, s, t, o :: Enabled(c, s, t) && Allowed(t, o) && shared(s) && local(s, id, t) ==>
      shared(NextShared(c, id, s, t, o)) && local(NextShared(c, id, s, t, o), id, NextTask(c, s, t, o))
  }

  ghost predicate KeepsOthers(c: Config, shared: SharedInvariant, local: LocalInvariant) {
    forall id: nat, s, t, o, j: nat, u ::
      Enabled(c, s, t) && Allowed(t, o) && shared(s) && local(s, id, t) && j != id && local(s, j, u) ==>
        local(NextShared(c, id, s, t, o), j, u)
  }

  ghost predicate HoldsIn(s: State, shared: SharedInvariant, local: LocalInvariant) {
    shared(s.shared) && forall i: nat :: i < |s.tasks| ==> local(s.shared, i, s.tasks[i])
  }

  lemma {:induction false} StepKeeps(c: Config, s: State, s': State, shared: SharedInvariant, local: LocalInvariant)
    requires KeepsOwn(c, shared, local) && KeepsOthers(c, shared, local)
    requires HoldsIn(s, shared, local) && IsStep(c, s, s')
    ensures HoldsIn(s', shared, local)
  {
    var id: nat, o :| CanStep(c, s, id, o) && s' == Next(c, s, id, o);
    assert local(s.shared, id, s.tasks[id]);
    forall i: nat | i < |s'.tasks| ensures local(s'.shared, i, s'.tasks[i]) {
      assert local(s.shared, i, s.tasks[i]);
    }
  }

  lemma {:induction false} HoldsInRun(c: Config, run: seq<State>, k: nat, shared: SharedInvariant,
                                      local: LocalInvariant)
    requires IsRun(c, run) && k < |run|
    requires HoldsIn(run[0], shared, local) && KeepsOwn(c, shared, local) && KeepsOthers(c, shared, local)
    ensures HoldsIn(run[k], shared, local)
  {
    if k > 0 {
      HoldsInRun(c, run, k - 1, shared, local);
      assert IsStepAt(c, run, k - 1);
      StepKeeps(c, run[k - 1], run[k], shared, local);
    }
  }

  /** The step that leads from one state of a run to the next. */
  lemma {:induction false} StepOf(c: Config, run: seq<State>, k: nat) returns (id: nat, o: Outcome)
    requires IsRun(c, run) && k + 1 < |run|
    ensures CanStep(c, run[k], id, o) && run[k + 1] == Next(c, run[k], id, o)
  {
    assert IsStepAt(c, run, k);
    id, o :| CanStep(c, run[k], id, o) && run[k + 1] == Next(c, run[k], id, o);
  }

  /** What every step from state `k` on keeps holds from there on. */
  lemma {:induction false} Onwards(run: seq<State>, k: nat, m: nat, p: State -> bool)
    requires k <= m < |run| && p(run[k]) && forall x: nat :: k <= x < m && p(run[x]) ==> p(run[x + 1])
    ensures p(run[m])
  {
    if k < m {
      Onwards(run, k, m - 1, p);
      assert p(run[m - 1 + 1]);
    }
  }

  // ---------------------------------------------------------------------------------------------
  // Invariants of single tasks

  type TaskInvariant = Task -> bool

  ghost predicate IsKept(c: Config, shared: SharedInvariant, inv: TaskInvariant) {
    forall s, t, o :: Enabled(c, s, t) && Allowed(t, o) && shared(s) && inv(t) ==> inv(NextTask(c, s, t, o))
  }

  /** Where a step that is no cache lookup and no part of a fetch leads. */
  ghost predicate IsKeptOutside(c: Config, inv: TaskInvariant) {
    && (forall t :: inv(t) && t.pc.Begin? ==> inv(Start(c, t)))
    && (forall t, status :: inv(t) && t.pc.Attempt? ==> inv(AfterAttempt(c, t, status)))
    && (forall t :: inv(t) && t.pc.Fetched? ==> inv(AfterFetch(c, t, t.pc.found)))
    && (forall t, status :: inv(t) && t.pc.Complete? ==> inv(AfterComplete(c, t, t.pc.insert, status)))
    && (forall t :: inv(t) && IsInserting(t.pc) ==> inv(AfterInserting(t)))
  }

  ghost predicate IsKeptInLookups(c: Config, shared: SharedInvariant, inv: TaskInvariant) {
    && (forall s, t :: shared(s) && inv(t) && IsLookup(t.pc) ==> inv(AfterLookup(c, s, t)))
    && (forall s, t :: shared(s) && inv(t) && IsUserLookup(t.pc) ==> inv(AfterUserLookup(c, s, t)))
  }

  ghost predicate IsKeptInFetches(c: Config, shared: SharedInvariant, inv: TaskInvariant) {
    forall s, t, o :: Enabled(c, s, t) && Allowed(t, o) && shared(s) && inv(t) && IsFetching(t.pc) ==>
      inv(AfterFetching(c, s, t, o))
  }

  lemma {:induction false} KeptByCases(c: Config, shared: SharedInvariant, inv: TaskInvariant)
    requires IsKeptOutside(c, inv) && IsKeptInLookups(c, shared, inv) && IsKeptInFetches(c, shared, inv)
    ensures IsKept(c, shared, inv)
  {
    forall s, t, o | Enabled(c, s, t) && Allowed(t, o) && shared(s) && inv(t) ensures inv(NextTask(c, s, t, o)) {
      if IsLookup(t.pc) {
        assert inv(AfterLookup(c, s, t));
      } else if IsUserLookup(t.pc) {
        assert inv(AfterUserLookup(c, s, t));
      } else if IsFetching(t.pc) {
        assert inv(AfterFetching(c, s, t, o));
      } else if t.pc.Begin? {
        assert inv(Start(c, t));
      } else if t.pc.Attempt? {
        assert inv(AfterAttempt(c, t, o.status));
      } else if t.pc.Fetched? {
        assert inv(AfterFetch(c, t, t.pc.found));
      } else if t.pc.Complete? {
        assert inv(AfterComplete(c, t, t.pc.insert, o.status));
      } else {
        assert inv(AfterInserting(t));
      }
    }
  }

  /** An invariant of single tasks holds in every run in which the shared condition holds. */
  lemma {:induction false} TaskInRun(c: Config, run: seq<State>, k: nat, i: nat, shared: SharedInvariant,
                                     inv: TaskInvariant)
    requires IsRun(c, run) && k < |run| && i < |run[k].tasks|
    requires IsKept(c, shared, inv) && forall m: nat :: m < |run| ==> shared(run[m].shared)
    requires forall j: nat :: j < |run[0].tasks| ==> inv(run[0].tasks[j])
    ensures inv(run[k].tasks[i])
  {
    if k > 0 {
      var id, o := StepOf(c, run, k - 1);
      TaskInRun(c, run, k - 1, i, shared, inv);
      assert shared(run[k - 1].shared);
    }
  }

  /** No task ever changes its job. */
  lemma {:induction false} JobsAreFixed(c: Config, run: seq<State>, k: nat)
    requires IsRun(c, run) && k < |run|
    ensures |run[k].tasks| == |run[0].tasks|
    ensures forall i :: 0 <= i < |run[0].tasks| ==> run[k].tasks[i].job == run[0].tasks[i].job
  {
    if k > 0 {
      JobsAreFixed(c, run, k - 1);
      var id, o := StepOf(c, run, k - 1);
      JobIsFixed(c, run[k - 1].shared, run[k - 1].tasks[id], o);
    }
  }

  lemma {:induction false} JobIsFixed(c: Config, s: Shared, t: Task, o: Outcome)
    requires Enabled(c, s, t)
    ensures NextTask(c, s, t, o).job == t.job
  {
  }

  // ---------------------------------------------------------------------------------------------
  // Where the steps lead

  /** Where a lookup of `handle` may lead. */
  predicate MayFollowLookup(t: Task, t': Task) {
    && t'.job == t.job && t'.answer == t.answer && t'.sends == t.sends
    && (t'.pc.Attempt? || t'.pc.RealmLookup? || t'.pc.Register? || (t'.pc.Complete? && t'.pc.insert.None?))
    && (t'.pc.Attempt? ==> t.pc.UrlLookup?) && (t'.pc.RealmLookup? ==> t.pc.IndexLookup?)
  }

  lemma {:induction false} LookupTask(c: Config, s: Shared, t: Task)
    requires IsLookup(t.pc)
    ensures MayFollowLookup(t, AfterLookup(c, s, t))
  {
  }

  /** Where a lookup for a username may lead. */
  predicate MayFollowUserLookup(t: Task, t': Task) {
    && t'.job == t.job && t'.answer == t.answer && t'.sends == t.sends && t'.credentials == t.credentials
    && (t'.pc.UserRoot? || t'.pc.UserUrl? || t'.pc.Register? || t'.pc.Complete?)
    && (t'.pc.Complete? || t'.header == t.header) && (t.pc.UserRealm? ==> t'.pc.Complete?)
    && (t'.pc.UserRoot? ==> t.pc.UserFirst?) && (t'.pc.UserUrl? ==> t.pc.UserFirst? || t.pc.UserRoot?)
  }

  lemma {:induction false} UserLookupTask(c: Config, s: Shared, t: Task)
    requires IsUserLookup(t.pc)
    ensures MayFollowUserLookup(t, AfterUserLookup(c, s, t))
  {
  }

  lemma {:induction false} FetchingTask(c: Config, s: Shared, t: Task, o: Outcome)
    requires Enabled(c, s, t) && IsFetching(t.pc)
    ensures var t' := AfterFetching(c, s, t, o);
      && t' == NextTask(c, s, t, o) && t' == t.(pc := t'.pc, answer := t'.answer) && KeyOf(c, t') == KeyOf(c, t)
      && t'.answer == (if t'.pc.Fetched? then Some(t'.pc.found) else t.answer)
      && (t'.pc.Fetched? || (IsFetching(t'.pc) && !t'.pc.Register?))
  {
  }
}
