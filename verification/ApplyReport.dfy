/** What a call of `Apply` reports: the changes it considers, why one cannot be planned, and the errors returned. */
module ApplyReport {
  import opened Basics
  import opened PatchModel
  import opened PlanProofs
  import opened PlanTheorems
  import opened LookupMeaning
  import opened Transactions
  import opened AttemptMeaning
  import opened ApplySpec
  import opened ApplyTheorems
  import opened ApplyMeaning

  // ------------------------------------------------------------- the changes considered

  /** `at` lists the positions of the served changes that are checked out. */
  ghost predicate Usables(w: World, cs: seq<ChangeId>, at: seq<nat>) {
    && Increasing(at)
    && forall i: nat :: i in at <==> i < |cs| && w.helper(cs[i]) && w.repos(cs[i]).Some?
  }

  function ChangesAt(cs: seq<ChangeId>, at: seq<nat>): seq<ChangeId>
    requires forall i :: i in at ==> i < |cs|
  {
    seq(|at|, k requires 0 <= k < |at| => var i := at[k]; assert i in at; cs[i])
  }

  lemma UsablesSnoc(w: World, init: seq<ChangeId>, c: ChangeId, before: seq<nat>)
    requires Usables(w, init, before)
    ensures Usables(w, init + [c], if w.helper(c) && w.repos(c).Some? then before + [|init|] else before)
  {
    var usable := w.helper(c) && w.repos(c).Some?;
    var cs, at := init + [c], if usable then before + [|init|] else before;
    forall i: nat ensures i in at <==> i < |cs| && w.helper(cs[i]) && w.repos(cs[i]).Some? {
      assert i in at <==> i in before || (usable && i == |init|);
      assert i < |init| ==> cs[i] == init[i];
    }
    forall i, j | 0 <= i < j < |at| ensures at[i] < at[j] {
      if j == |before| {
        var x := before[i];
        assert x in before;
      }
    }
  }

  lemma ChangesSnoc(init: seq<ChangeId>, c: ChangeId, before: seq<nat>)
    requires forall i :: i in before ==> i < |init|
    ensures forall i :: i in before + [|init|] ==> i < |init + [c]|
    ensures ChangesAt(init + [c], before) == ChangesAt(init, before)
    ensures ChangesAt(init + [c], before + [|init|]) == ChangesAt(init, before) + [c]
  {
    forall k | 0 <= k < |before| ensures before[k] < |init| && (init + [c])[before[k]] == init[before[k]] {
      var i := before[k];
      assert i in before && i < |init|;
    }
    assert (init + [c])[|init|] == c;
  }

  lemma KeptSnoc(w: World, init: seq<ChangeId>, c: ChangeId)
    ensures Kept(w, init + [c]) == Kept(w, init) + if w.helper(c) && w.repos(c).Some? then [c] else []
  {
    assert (init + [c])[..|init + [c]| - 1] == init;
  }

  ghost predicate Picks(w: World, cs: seq<ChangeId>, at: seq<nat>, picked: seq<ChangeId>) {
    Usables(w, cs, at) && picked == ChangesAt(cs, at)
  }

  /** One more change. */
  lemma PicksSnoc(w: World, init: seq<ChangeId>, c: ChangeId, before: seq<nat>, picked: seq<ChangeId>)
    returns (at: seq<nat>)
    requires Picks(w, init, before, picked)
    ensures Picks(w, init + [c], at, picked + if w.helper(c) && w.repos(c).Some? then [c] else [])
  {
    UsablesSnoc(w, init, c, before);
    ChangesSnoc(init, c, before);
    at := if w.helper(c) && w.repos(c).Some? then before + [|init|] else before;
  }

  lemma {:induction false} KeptMeans(w: World, cs: seq<ChangeId>) returns (at: seq<nat>)
    ensures Picks(w, cs, at, Kept(w, cs))
  {
    if cs == [] {
      at := [];
    } else {
      var init, c := cs[..|cs| - 1], cs[|cs| - 1];
      var before := KeptMeans(w, init);
      KeptSnoc(w, init, c);
      at := PicksSnoc(w, init, c, before, Kept(w, init));
      assert cs == init + [c];
    }
  }

  /** The served and checked out changes of the request, in its order, as far as the filter lets them through. */
  lemma ConsideredMeans(w: World, q: Request) returns (at: seq<nat>)
    ensures Usables(w, q.changes, at)
    ensures q.filter.None? ==> Considered(w, q) == ChangesAt(q.changes, at)
    ensures q.filter.Some? ==> Considered(w, q) == q.filter.value(ChangesAt(q.changes, at))
  {
    at := KeptMeans(w, q.changes);
  }

  // ------------------------------------------------------------- why a change cannot be planned

  /** Gerrit would have to be asked about a dependency that is not part of the request, and fails. */
  ghost predicate Unanswerable(w: World, s: Series, cs: seq<ChangeId>, d: ChangeId) {
    d !in s.k.committed && w.helper(d) && d !in s.k.lookup && d !in cs && w.query(d) == QueryFailed
  }

  /** A dependency that is not part of the request and has not landed. */
  ghost predicate Outsider(w: World, s: Series, cs: seq<ChangeId>, d: ChangeId) {
    && d !in cs && d !in s.k.committed && w.helper(d) && !w.merged(d)
    && (d in s.k.lookup || w.query(d) == Found)
  }

  /** `o` refuses its change for the sake of `d`. */
  predicate Refuses(submitting: bool, o: PatchError, d: ChangeId) {
    var refusal := PatchError(d, false, if submitting then Rejected else NotEligible);
    o == if d == o.patch then refusal else PatchError(o.patch, false, DependsOn(refusal))
  }

  ghost predicate Reason(w: World, s: Series, q: Request, o: PatchError) {
    match w.gerritDeps(o.patch)
    case None => o == PatchError(o.patch, false, GerritFailure)
    case Some(ds) => exists d :: d in ds && BadDependency(w, s, q, o, d)
  }

  ghost predicate BadDependency(w: World, s: Series, q: Request, o: PatchError, d: ChangeId) {
    var cs := Considered(w, q);
    || (Unanswerable(w, s, cs, d) && o == PatchError(o.patch, false, GerritFailure))
    || (q.frozen && Outsider(w, s, cs, d) && Refuses(s.submitting, o, d))
  }

  lemma StopIsBad(w: World, s: Series, q: Request, o: PatchError, d: ChangeId)
    requires Stops(w, PlanningMode(w, s, q), PlanningCaches(w, s, q), d)
    requires NeedsErr(w, PlanningMode(w, s, q), PlanningCaches(w, s, q), o.patch, d)
    requires Needs(w, PlanningMode(w, s, q), PlanningCaches(w, s, q), o.patch) == Err(o)
    ensures BadDependency(w, s, q, o, d)
  {
  }

  /**
    A change cannot be planned only because the recursion is too deep, or
    gerrit fails, or, in frozen mode alone, a dependency outside the request
    has not landed; a dependency within the request is never refused.
   */
  lemma PlanningErrorMeans(w: World, s: Series, q: Request, p: Proposal) returns (o: PatchError)
    requires TrueDeps(w, s.k) && p in Proposals(w, s, q).0 && p.error.Some?
    ensures Stems(p.error.value, o) && (o.cause == RecursionLimit || Reason(w, s, q, o))
  {
    var m, k0 := PlanningMode(w, s, q), PlanningCaches(w, s, q);
    EachProposed(w, m, k0, Considered(w, q), MAX_PLAN_RECURSION);
    var k :| Grown(w, k0, k) && p == Propose(w, m, k, p.change, MAX_PLAN_RECURSION).0;
    PlanBlame(w, m, k0, k, p.change, MAX_PLAN_RECURSION);
    o :| Stems(p.error.value, o) && Origin(w, m, k0, p.change, o, MAX_PLAN_RECURSION);
    NeedsMeans(w, m, k0, o.patch);
    if o.cause != RecursionLimit && w.gerritDeps(o.patch).Some? {
      var ds := w.gerritDeps(o.patch).value;
      var i :| FirstStop(w, m, k0, ds, i);
      StopIsBad(w, s, q, o, ds[i]);
      assert ds[i] in ds;
    }
  }

  // ------------------------------------------------------------- the errors returned

  /** An error from before any transaction: an absent change, or one that could not be planned. */
  ghost predicate Early(w: World, s: Series, q: Request, e: PatchError) {
    || (e == PatchError(e.patch, false, NotInManifest) && e.patch in q.changes && w.helper(e.patch) && w.repos(e.patch).None?)
    || exists p :: p in Proposals(w, s, q).0 && p.error == Some(e)
  }

  /** The transactions start from the histories and failures so far, and from what planning has found committed. */
  ghost predicate StartsRun(w: World, s: Series, q: Request, first: RunState) {
    first.repos == s.repos && first.failedTot == s.failedTot && first.committed == Proposals(w, s, q).1.committed
  }

  /**
    The errors returned are exactly the early ones and those of failed
    transactions, except errors about changes that were applied after all;
    in-flight failures come back separately.
   */
  lemma ErrorsMean(w: World, s: Series, q: Request) returns (states: seq<RunState>)
    requires TrueDeps(w, s.k)
    ensures states != [] && StartsRun(w, s, q, states[0]) && IsTrace(w, states[0], Todo(w, s, q), states)
    ensures var (o, todo) := (Apply(w, s, q), Todo(w, s, q));
      && (forall e :: (e in o.failedTot || e in o.failedInflight) <==>
            e.patch !in o.applied && (Early(w, s, q, e) || exists i :: FailedWith(w, todo, states, e, i)))
      && (forall e :: e in o.failedTot ==> !e.inflight) && (forall e :: e in o.failedInflight ==> e.inflight)
      && (forall c :: c in o.applied <==> exists i :: LandedWith(w, todo, states, c, i))
  {
    states := RunIsInOrder(w, RunStart(w, s, q), Todo(w, s, q));
    OutcomesAreDisjoint(w, s, q);
    ReturnedErrors(w, s, q);
    forall e ensures e in EarlyErrors(w, s, q) <==> Early(w, s, q, e) {
    }
  }

  lemma ReturnedErrors(w: World, s: Series, q: Request)
    ensures var (o, r) := (Apply(w, s, q), RunAll(w, RunStart(w, s, q), Todo(w, s, q)));
      && (forall e :: (e in o.failedTot || e in o.failedInflight) <==>
            e.patch !in o.applied && (e in EarlyErrors(w, s, q) || e in r.failed))
      && (forall c :: c in o.applied <==> c in r.applied)
  {
    if Resolved(Proposals(w, s, q).0) == [] {
      EmptyTodo(w, s, q);
    }
  }

  /** What planning has learned is kept, and the applied changes count as committed. */
  lemma CachesAfter(w: World, s: Series, q: Request)
    requires TrueDeps(w, s.k)
    ensures var (o, k) := (Apply(w, s, q), Proposals(w, s, q).1);
      && o.series.k.lookup == k.lookup && o.series.k.deps == k.deps
      && o.series.k.committed == k.committed + Elements(o.applied)
  {
    TodoWellPlanned(w, s, q);
    var r := RunAll(w, RunStart(w, s, q), Todo(w, s, q));
    RunIsAtomic(w, PlanningMode(w, s, q), PlanningCaches(w, s, q), RunStart(w, s, q), Todo(w, s, q));
    if Resolved(Proposals(w, s, q).0) != [] {
      assert Elements(Uniq(r.applied)) == Elements(r.applied);
    }
  }
}
