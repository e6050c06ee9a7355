/** What one call of `Apply` guarantees, whatever changes, graph and cherry-pick results it meets. */
module ApplyTheorems {
  import opened Basics
  import opened PatchModel
  import opened PlanProofs
  import opened PlanTheorems
  import opened Transactions
  import opened ApplySpec

  // --------------------------------------------- a round of planning is well planned

  ghost predicate GoodProposal(w: World, m: Mode, k0: Caches, committed: set<ChangeId>, p: Proposal) {
    if p.error.Some? then
      p.error.value.patch == p.change && !p.error.value.inflight && BlameChain(w, p.error.value)
    else
      WellPlanned(w, m, k0, committed, Planned(p.change, p.plan))
  }

  lemma ProposeGood(w: World, m: Mode, k0: Caches, k: Caches, c: ChangeId, limit: nat)
    requires TrueDeps(w, k0) && Grown(w, k0, k) && c in k0.lookup
    ensures var (p, k1) := Propose(w, m, k, c, limit);
            Grown(w, k, k1) && p.change == c && GoodProposal(w, m, k0, k1.committed, p)
  {
    var (p, k1) := Propose(w, m, k, c, limit);
    if c !in k.committed {
      PlanProgress(w, m, k0, k, c, limit);
      if p.error.None? {
        PlanIsReachableSet(w, m, k0, k, c, limit);
        assert c in [c];
        forall x | x in p.plan ensures x !in k1.committed {
          PlannedStayUncommitted(w, m, k0, k, k1, c, x);
        }
      }
    }
  }

  /** A plan made earlier in the round is still good at its end. */
  lemma GoodStaysGood(w: World, m: Mode, k0: Caches, k: Caches, k1: Caches, p: Proposal)
    requires TrueDeps(w, k0) && Grown(w, k0, k) && Grown(w, k, k1) && p.change in k0.lookup
    requires GoodProposal(w, m, k0, k.committed, p)
    ensures GoodProposal(w, m, k0, k1.committed, p)
  {
    if p.error.None? && p.plan != [] {
      forall x | x in p.plan ensures x !in k1.committed {
        PlannedStayUncommitted(w, m, k0, k, k1, p.change, x);
      }
    }
  }

  /** All proposals of a round are good at its end. */
  ghost predicate GoodRound(w: World, m: Mode, k0: Caches, cs: seq<ChangeId>, ps: seq<Proposal>, k: Caches) {
    && Grown(w, k0, k) && |ps| == |cs|
    && forall i :: 0 <= i < |cs| ==> ps[i].change == cs[i] && GoodProposal(w, m, k0, k.committed, ps[i])
  }

  lemma RoundSnoc(w: World, m: Mode, k0: Caches, cs: seq<ChangeId>, c: ChangeId, ps: seq<Proposal>,
                  k: Caches, limit: nat)
    requires TrueDeps(w, k0) && Elements(cs) <= k0.lookup && c in k0.lookup
    requires GoodRound(w, m, k0, cs, ps, k)
    ensures var (p, k1) := Propose(w, m, k, c, limit);
            GoodRound(w, m, k0, cs + [c], ps + [p], k1)
  {
    ProposeGood(w, m, k0, k, c, limit);
    var (p, k1) := Propose(w, m, k, c, limit);
    GrownTransitive(w, k0, k, k1);
    forall i | 0 <= i < |cs| ensures GoodProposal(w, m, k0, k1.committed, ps[i]) {
      assert cs[i] in Elements(cs);
      GoodStaysGood(w, m, k0, k, k1, ps[i]);
    }
  }

  lemma {:induction false} PlanEachGood(w: World, m: Mode, k0: Caches, cs: seq<ChangeId>, limit: nat)
    requires TrueDeps(w, k0) && Elements(cs) <= k0.lookup
    ensures var (ps, k) := PlanEach(w, m, k0, cs, limit);
            GoodRound(w, m, k0, cs, ps, k)
    decreases |cs|
  {
    if cs != [] {
      var init, c := cs[..|cs| - 1], cs[|cs| - 1];
      assert cs == init + [c];
      assert Elements(init) <= Elements(cs) && c in Elements(cs);
      PlanEachGood(w, m, k0, init, limit);
      PlanEachSnoc(w, m, k0, init, c, limit);
      RoundSnoc(w, m, k0, init, c, PlanEach(w, m, k0, init, limit).0, PlanEach(w, m, k0, init, limit).1, limit);
    }
  }

  lemma PlanEachSnoc(w: World, m: Mode, k: Caches, cs: seq<ChangeId>, c: ChangeId, limit: nat)
    ensures var (ps, k1) := PlanEach(w, m, k, cs, limit);
            var (p, k2) := Propose(w, m, k1, c, limit);
            PlanEach(w, m, k, cs + [c], limit) == (ps + [p], k2)
  {
    assert (cs + [c])[..|cs + [c]| - 1] == cs;
  }

  lemma TodoWellPlanned(w: World, s: Series, q: Request)
    requires TrueDeps(w, s.k)
    ensures var (m, k0, k1) := (PlanningMode(w, s, q), PlanningCaches(w, s, q), Proposals(w, s, q).1);
      && Grown(w, k0, k1)
      && AllPlanned(w, m, k0, k1.committed, Todo(w, s, q))
      && (forall p :: p in Todo(w, s, q) <==> p in Resolved(Proposals(w, s, q).0))
  {
    var (m, k0) := (PlanningMode(w, s, q), PlanningCaches(w, s, q));
    PlanEachGood(w, m, k0, Considered(w, q), MAX_PLAN_RECURSION);
    SortPlansInOrder(Considered(w, q), Resolved(Proposals(w, s, q).0));
  }

  lemma ApplyIsRun(w: World, s: Series, q: Request)
    ensures var (o, r) := (Apply(w, s, q), RunAll(w, RunStart(w, s, q), Todo(w, s, q)));
      && o.series.failedTot == r.state.failedTot
      && (forall x :: x in o.applied <==> x in r.applied)
  {
  }

  // ------------------------------------------------------------- main theorems

  /**
    Atomic refinement.  Every history is its old value plus exactly the
    applied changes touching that repo, in order and each once.  The
    committed set grows by the applied changes and by changes that gerrit
    reported as merged while planning, and by nothing else.
   */
  lemma ApplyIsAtomic(w: World, s: Series, q: Request)
    requires TrueDeps(w, s.k)
    ensures var o := Apply(w, s, q);
      && NoDup(o.applied)
      && o.series.repos.Keys == s.repos.Keys
      && (forall g :: g in s.repos ==> o.series.repos[g] == s.repos[g] + Touching(w, o.applied, g))
      && s.k.committed <= o.series.k.committed
      && (forall c :: c in o.applied ==> c in o.series.k.committed && c !in s.k.committed)
      && (forall c :: c in o.series.k.committed ==> c in s.k.committed || c in o.applied || w.merged(c))
  {
    TodoWellPlanned(w, s, q);
    var st, todo := RunStart(w, s, q), Todo(w, s, q);
    RunIsAtomic(w, PlanningMode(w, s, q), PlanningCaches(w, s, q), st, todo);
    UniqNoDup(RunAll(w, st, todo).applied);
    assert forall g :: g in s.repos ==> Touching(w, [], g) == [];
  }

  /** What an applied change needs is applied too, and before it unless the change lies on a dependency cycle. */
  lemma ApplyRespectsDependencies(w: World, s: Series, q: Request, x: ChangeId, d: ChangeId)
    requires TrueDeps(w, s.k)
    requires x in Apply(w, s, q).applied
    requires Edge(w, PlanningMode(w, s, q), PlanningCaches(w, s, q), x, d)
    ensures var o := Apply(w, s, q);
      && d in o.applied
      && (!OnCycle(w, PlanningMode(w, s, q), PlanningCaches(w, s, q), x) ==> Precedes(o.applied, d, x))
  {
    TodoWellPlanned(w, s, q);
    var m, k0 := PlanningMode(w, s, q), PlanningCaches(w, s, q);
    AppliedIsClosed(w, m, k0, RunStart(w, s, q), Todo(w, s, q), x, d);
    if !OnCycle(w, m, k0, x) {
      AppliedIsOrdered(w, m, k0, RunStart(w, s, q), Todo(w, s, q), x, d);
    }
  }

  /** Once a change is known not to apply to the tip of the tree, no call ever applies it or forgets that. */
  lemma ApplyNeverAppliesKnownBad(w: World, s: Series, q: Request)
    requires TrueDeps(w, s.k)
    ensures var o := Apply(w, s, q);
      && (forall x :: x in s.failedTot ==> x in o.series.failedTot)
      && (forall x :: x in o.series.failedTot ==> x !in o.applied)
  {
    ApplyIsRun(w, s, q);
    TodoWellPlanned(w, s, q);
    KnownBadNeverApplied(w, PlanningMode(w, s, q), PlanningCaches(w, s, q), RunStart(w, s, q), Todo(w, s, q));
  }

  ghost predicate Reported(o: Outcome, c: ChangeId) {
    c in o.applied || c in o.series.k.committed || HasBlame(o.failedTot + o.failedInflight, c)
  }

  /** Planning of `c` itself failed. */
  ghost predicate Unplannable(w: World, s: Series, q: Request, c: ChangeId) {
    exists p :: p in Proposals(w, s, q).0 && p.change == c && p.error.Some?
  }

  /** Some plan for `c` has all its members in the manifest. */
  ghost predicate Locatable(w: World, s: Series, q: Request, c: ChangeId) {
    exists p :: p in Todo(w, s, q) && p.change == c && FirstMissing(w, p.plan).None?
  }

  /** The applied and the failed outcomes are disjoint, and the failed ones are sorted by kind. */
  lemma OutcomesAreDisjoint(w: World, s: Series, q: Request)
    requires TrueDeps(w, s.k)
    ensures var o := Apply(w, s, q);
      && (forall e :: e in o.failedTot ==> e.patch !in o.applied && !e.inflight)
      && (forall e :: e in o.failedInflight ==> e.patch !in o.applied && e.inflight)
  {
    if Resolved(Proposals(w, s, q).0) == [] {
      EarlyNeverInflight(w, s, q);
      assert Apply(w, s, q).applied == [] && Apply(w, s, q).failedTot == EarlyErrors(w, s, q);
    }
  }

  /** Errors before any transaction are never in-flight failures. */
  lemma EarlyNeverInflight(w: World, s: Series, q: Request)
    requires TrueDeps(w, s.k)
    ensures forall e :: e in EarlyErrors(w, s, q) ==> !e.inflight
  {
    PlanEachGood(w, PlanningMode(w, s, q), PlanningCaches(w, s, q), Considered(w, q), MAX_PLAN_RECURSION);
    var ps := Proposals(w, s, q).0;
    forall e | e in PlanErrors(ps) ensures !e.inflight {
      var p :| p in ps && p.error == Some(e);
      var i :| 0 <= i < |ps| && ps[i] == p;
    }
  }

  /**
    A change whose planning succeeded is reported exactly when its whole plan
    is in the manifest, or a plan is refused because of that very change, or
    a failed fetch is about it.
   */
  lemma ReportedExactlyWhen(w: World, s: Series, q: Request, c: ChangeId)
    requires TrueDeps(w, s.k) && c in Considered(w, q)
    ensures Reported(Apply(w, s, q), c) <==>
      || Unplannable(w, s, q, c)
      || Locatable(w, s, q, c)
      || RefusedFor(w, Todo(w, s, q), c)
      || HasBlame(NotCheckedOut(w, q.changes), c)
  {
    var m, k0 := PlanningMode(w, s, q), PlanningCaches(w, s, q);
    var (ps, k1) := Proposals(w, s, q);
    PlanEachGood(w, m, k0, Considered(w, q), MAX_PLAN_RECURSION);
    TodoWellPlanned(w, s, q);
    var i :| 0 <= i < |ps| && ps[i].change == c;
    var todo, st := Todo(w, s, q), RunStart(w, s, q);
    RunIsAtomic(w, m, k0, st, todo);
    EarlyBlame(w, s, q, c);
    SurvivingBlame(w, s, q, c);
    if ps[i].error.Some? {
      assert ps[i] in ps && Unplannable(w, s, q, c);
    } else {
      var p := Planned(c, ps[i].plan);
      assert ps[i] in ps && p in todo;
      AccountedExactlyWhen(w, st, todo, m, k0, p);
      if Locatable(w, s, q, c) {
        var p' :| p' in todo && p'.change == c && FirstMissing(w, p'.plan).None?;
        AccountedExactlyWhen(w, st, todo, m, k0, p');
      }
      assert FirstMissing(w, p.plan).None? ==> Locatable(w, s, q, c);
    }
  }

  lemma EarlyBlame(w: World, s: Series, q: Request, c: ChangeId)
    requires TrueDeps(w, s.k)
    ensures HasBlame(EarlyErrors(w, s, q), c) <==>
              Unplannable(w, s, q, c) || HasBlame(NotCheckedOut(w, q.changes), c)
  {
    var ps := Proposals(w, s, q).0;
    PlanEachGood(w, PlanningMode(w, s, q), PlanningCaches(w, s, q), Considered(w, q), MAX_PLAN_RECURSION);
    if HasBlame(EarlyErrors(w, s, q), c) {
      var e :| e in EarlyErrors(w, s, q) && e.patch == c;
      if e in PlanErrors(ps) {
        var p :| p in ps && p.error == Some(e);
        assert p.change == c;
      } else {
        assert e in NotCheckedOut(w, q.changes);
      }
    }
    if Unplannable(w, s, q, c) {
      var p :| p in ps && p.change == c && p.error.Some?;
      assert p.error.value in PlanErrors(ps) && p.error.value in EarlyErrors(w, s, q);
    }
    if HasBlame(NotCheckedOut(w, q.changes), c) {
      var e :| e in NotCheckedOut(w, q.changes) && e.patch == c;
      assert e in EarlyErrors(w, s, q);
    }
  }

  /** Dropping exceptions about applied changes loses no unapplied change. */
  lemma SurvivingBlame(w: World, s: Series, q: Request, c: ChangeId)
    requires TrueDeps(w, s.k)
    ensures var (st, todo) := (RunStart(w, s, q), Todo(w, s, q));
      Reported(Apply(w, s, q), c) <==>
        Accounted(st, RunAll(w, st, todo), c) || HasBlame(EarlyErrors(w, s, q), c)
  {
    TodoWellPlanned(w, s, q);
    var st, todo := RunStart(w, s, q), Todo(w, s, q);
    var r := RunAll(w, st, todo);
    RunIsAtomic(w, PlanningMode(w, s, q), PlanningCaches(w, s, q), st, todo);
    if Resolved(Proposals(w, s, q).0) == [] {
      EmptyTodo(w, s, q);
      assert Apply(w, s, q).failedTot + Apply(w, s, q).failedInflight == EarlyErrors(w, s, q);
    } else {
      FilteredBlame(EarlyErrors(w, s, q), r.failed, Uniq(r.applied), c);
    }
  }

  /** Filtering and sorting the exceptions keeps some exception about every unapplied change they were about. */
  lemma FilteredBlame(early: seq<PatchError>, late: seq<PatchError>, applied: seq<ChangeId>, c: ChangeId)
    ensures var failed := Unapplied(early + late, applied);
      HasBlame(WithInflight(failed, false) + WithInflight(failed, true), c) <==>
        c !in applied && (HasBlame(early, c) || HasBlame(late, c))
  {
    var failed := Unapplied(early + late, applied);
    var out := WithInflight(failed, false) + WithInflight(failed, true);
    assert forall e :: e in out <==> (e in early || e in late) && e.patch !in applied;
    if c !in applied && HasBlame(early, c) {
      var e :| e in early && e.patch == c;
      assert e in out;
    }
    if c !in applied && HasBlame(late, c) {
      var e :| e in late && e.patch == c;
      assert e in out;
    }
    if HasBlame(out, c) {
      var e :| e in out && e.patch == c;
      assert e in early || e in late;
    }
  }

  lemma EmptyTodo(w: World, s: Series, q: Request)
    requires Resolved(Proposals(w, s, q).0) == []
    ensures Todo(w, s, q) == []
  {
  }

  /**
    Without a filter, in frozen mode every change that reaches planning is
    applied, or committed, or blamed: plans then consist of fetched changes.
   */
  lemma FrozenReportsEverything(w: World, s: Series, q: Request, c: ChangeId)
    requires TrueDeps(w, s.k) && q.frozen && q.filter.None? && c in Considered(w, q)
    ensures Reported(Apply(w, s, q), c)
  {
    var m, k0 := PlanningMode(w, s, q), PlanningCaches(w, s, q);
    var (ps, k1) := Proposals(w, s, q);
    PlanEachGood(w, m, k0, Considered(w, q), MAX_PLAN_RECURSION);
    TodoWellPlanned(w, s, q);
    var i :| 0 <= i < |ps| && ps[i].change == c;
    assert ps[i] in ps;
    if ps[i].error.None? {
      var p := Planned(c, ps[i].plan);
      assert p in Todo(w, s, q);
      if p.plan != [] {
        forall x | x in p.plan ensures w.repos(x).Some? {
          ReachedUncommitted(w, m, k0, k1, c, x);
        }
      }
      assert Locatable(w, s, q, c);
    }
    ReportedExactlyWhen(w, s, q, c);
  }

  // ------------------------------------------------------------- many calls on one series

  /** The state after a sequence of calls, and all changes they applied, in order. */
  function Calls(w: World, s: Series, qs: seq<Request>): (Series, seq<ChangeId>)
    decreases |qs|
  {
    if qs == [] then (s, [])
    else
      var (t, applied) := Calls(w, s, qs[..|qs| - 1]);
      var o := Apply(w, t, qs[|qs| - 1]);
      (o.series, applied + o.applied)
  }

  lemma ApplyKeepsTrueDeps(w: World, s: Series, q: Request)
    requires TrueDeps(w, s.k)
    ensures TrueDeps(w, Apply(w, s, q).series.k)
  {
    TodoWellPlanned(w, s, q);
  }

  lemma NoDupConcat(a: seq<ChangeId>, b: seq<ChangeId>)
    requires NoDup(a) && NoDup(b) && forall x :: x in b ==> x !in a
    ensures NoDup(a + b)
  {
    var c := a + b;
    forall i, j | 0 <= i < j < |c| ensures c[i] != c[j] {
      if i < |a| && |a| <= j {
        var x := b[j - |a|];
        assert x in b && a[i] in a;
      }
    }
  }

  /** `t` is `s` after calls that applied exactly `applied`. */
  ghost predicate Recorded(w: World, s: Series, t: Series, applied: seq<ChangeId>) {
    && TrueDeps(w, t.k)
    && NoDup(applied)
    && (forall c :: c in applied ==> c in t.k.committed)
    && t.repos.Keys == s.repos.Keys
    && forall g :: g in s.repos ==> t.repos[g] == s.repos[g] + Touching(w, applied, g)
  }

  lemma RecordedAfter(w: World, s: Series, t: Series, applied: seq<ChangeId>, o: Outcome)
    requires Recorded(w, s, t, applied) && TrueDeps(w, o.series.k) && NoDup(o.applied)
    requires o.series.repos.Keys == t.repos.Keys && t.k.committed <= o.series.k.committed
    requires forall g :: g in t.repos ==> o.series.repos[g] == t.repos[g] + Touching(w, o.applied, g)
    requires forall c :: c in o.applied ==> c in o.series.k.committed && c !in t.k.committed
    ensures Recorded(w, s, o.series, applied + o.applied)
  {
    NoDupConcat(applied, o.applied);
    forall g | g in s.repos
      ensures o.series.repos[g] == s.repos[g] + Touching(w, applied + o.applied, g)
    {
      TouchingConcat(w, applied, o.applied, g);
    }
  }

  /** Over any sequence of calls no change is applied twice, and every history records exactly the applied changes. */
  lemma {:induction false} CallsApplyOnce(w: World, s: Series, qs: seq<Request>)
    requires TrueDeps(w, s.k)
    ensures var (t, applied) := Calls(w, s, qs);
            Recorded(w, s, t, applied)
    decreases |qs|
  {
    if qs == [] {
      assert forall g :: g in s.repos ==> Touching(w, [], g) == [];
    } else {
      CallsApplyOnce(w, s, qs[..|qs| - 1]);
      var (t, applied) := Calls(w, s, qs[..|qs| - 1]);
      ApplyIsAtomic(w, t, qs[|qs| - 1]);
      ApplyKeepsTrueDeps(w, t, qs[|qs| - 1]);
      RecordedAfter(w, s, t, applied, Apply(w, t, qs[|qs| - 1]));
    }
  }

  // ------------------------------------------------------------- reporting in terms of the dependency graph

  /** The dependencies of some change that `c` needs, directly or not, cannot be looked up. */
  ghost predicate LookupFails(w: World, m: Mode, k: Caches, c: ChangeId) {
    exists x :: Reachable(w, m, k, c, x) && Needs(w, m, k, x).Err?
  }

  /** Every change that `c` needs, directly or not, is in some checkout. */
  ghost predicate AllLocatable(w: World, m: Mode, k: Caches, c: ChangeId) {
    forall x :: Reachable(w, m, k, c, x) ==> w.repos(x).Some?
  }

  ghost predicate ProposedFrom(w: World, m: Mode, k0: Caches, limit: nat, p: Proposal) {
    exists k :: Grown(w, k0, k) && p == Propose(w, m, k, p.change, limit).0
  }

  lemma {:induction false} EachProposed(w: World, m: Mode, k0: Caches, cs: seq<ChangeId>, limit: nat)
    requires TrueDeps(w, k0) && Elements(cs) <= k0.lookup
    ensures forall p :: p in PlanEach(w, m, k0, cs, limit).0 ==> ProposedFrom(w, m, k0, limit, p)
    decreases |cs|
  {
    if cs != [] {
      var init, c := cs[..|cs| - 1], cs[|cs| - 1];
      assert Elements(init) <= Elements(cs);
      EachProposed(w, m, k0, init, limit);
      PlanEachGood(w, m, k0, init, limit);
      var (ps, k) := PlanEach(w, m, k0, init, limit);
      assert ProposedFrom(w, m, k0, limit, Propose(w, m, k, c, limit).0);
    }
  }

  /** Whether one change can be planned, and whether its plan is locatable, is decided by its graph. */
  lemma ProposalInGraph(w: World, m: Mode, k0: Caches, p: Proposal, limit: nat, all: set<ChangeId>)
    requires TrueDeps(w, k0) && ProposedFrom(w, m, k0, limit, p)
    requires p.change in k0.lookup && p.change !in k0.committed
    requires (forall x :: Reachable(w, m, k0, p.change, x) ==> x in all) && |all| < limit
    ensures p.error.Some? <==> LookupFails(w, m, k0, p.change)
    ensures p.error.None? ==> (FirstMissing(w, p.plan).None? <==> AllLocatable(w, m, k0, p.change))
  {
    var k :| Grown(w, k0, k) && p == Propose(w, m, k, p.change, limit).0;
    DepthBound(w, m, k0, k, p.change, limit, all);
    if p.error.None? {
      PlanIsReachableSet(w, m, k0, k, p.change, limit);
    }
  }

  lemma PlansOf(ps: seq<Proposal>, cs: seq<ChangeId>, t: Planned)
    ensures t in Resolved(ps) <==> Proposal(t.change, t.plan, None) in ps
    ensures t in SortPlans(cs, Resolved(ps)) <==> Proposal(t.change, t.plan, None) in ps
  {
    SortPlansInOrder(cs, Resolved(ps));
  }

  /** All proposals for one change have what the graph decides in common. */
  lemma PlannedInGraph(w: World, s: Series, q: Request, c: ChangeId, all: set<ChangeId>)
    requires TrueDeps(w, s.k) && c in Considered(w, q) && c !in s.k.committed
    requires forall x :: Reachable(w, PlanningMode(w, s, q), PlanningCaches(w, s, q), c, x) ==> x in all
    requires |all| < MAX_PLAN_RECURSION
    ensures var (m, k0) := (PlanningMode(w, s, q), PlanningCaches(w, s, q));
      && (Unplannable(w, s, q, c) <==> LookupFails(w, m, k0, c))
      && (!Unplannable(w, s, q, c) ==> (Locatable(w, s, q, c) <==> AllLocatable(w, m, k0, c)))
  {
    var m, k0 := PlanningMode(w, s, q), PlanningCaches(w, s, q);
    var ps := Proposals(w, s, q).0;
    EachProposed(w, m, k0, Considered(w, q), MAX_PLAN_RECURSION);
    forall p | p in ps && p.change == c
      ensures p.error.Some? <==> LookupFails(w, m, k0, c)
      ensures p.error.None? ==> (FirstMissing(w, p.plan).None? <==> AllLocatable(w, m, k0, c))
    {
      ProposalInGraph(w, m, k0, p, MAX_PLAN_RECURSION, all);
    }
    var p := ProposalFor(w, s, q, c);
    ByProposals(w, s, q, c, p, LookupFails(w, m, k0, c), AllLocatable(w, m, k0, c));
  }

  lemma ProposalFor(w: World, s: Series, q: Request, c: ChangeId) returns (p: Proposal)
    requires TrueDeps(w, s.k) && c in Considered(w, q)
    ensures p in Proposals(w, s, q).0 && p.change == c
  {
    var ps := Proposals(w, s, q).0;
    PlanEachGood(w, PlanningMode(w, s, q), PlanningCaches(w, s, q), Considered(w, q), MAX_PLAN_RECURSION);
    var i :| 0 <= i < |Considered(w, q)| && Considered(w, q)[i] == c;
    p := ps[i];
  }

  lemma ByProposals(w: World, s: Series, q: Request, c: ChangeId, p: Proposal, fails: bool, locatable: bool)
    requires p in Proposals(w, s, q).0 && p.change == c
    requires forall r :: r in Proposals(w, s, q).0 && r.change == c ==> (r.error.Some? <==> fails)
    requires forall r :: r in Proposals(w, s, q).0 && r.change == c && r.error.None? ==>
               (FirstMissing(w, r.plan).None? <==> locatable)
    ensures Unplannable(w, s, q, c) <==> fails
    ensures !fails ==> (Locatable(w, s, q, c) <==> locatable)
  {
    var ps := Proposals(w, s, q).0;
    forall t ensures t in Todo(w, s, q) <==> Proposal(t.change, t.plan, None) in ps {
      PlansOf(ps, Considered(w, q), t);
    }
    if p.error.None? {
      assert p == Proposal(c, p.plan, None) && Planned(c, p.plan) in Todo(w, s, q);
    }
  }

  /**
    Below the depth limit, an uncommitted change that is in some checkout is
    reported if and only if a lookup fails among all it needs, or all it needs
    is in some checkout.
   */
  lemma ReportedInGraphExactlyWhen(w: World, s: Series, q: Request, c: ChangeId, all: set<ChangeId>)
    requires TrueDeps(w, s.k) && c in Considered(w, q) && c !in s.k.committed && w.repos(c).Some?
    requires forall x :: Reachable(w, PlanningMode(w, s, q), PlanningCaches(w, s, q), c, x) ==> x in all
    requires |all| < MAX_PLAN_RECURSION
    ensures var (m, k0) := (PlanningMode(w, s, q), PlanningCaches(w, s, q));
            Reported(Apply(w, s, q), c) <==> LookupFails(w, m, k0, c) || AllLocatable(w, m, k0, c)
  {
    PlannedInGraph(w, s, q, c, all);
    ReportedExactlyWhen(w, s, q, c);
    assert !RefusedFor(w, Todo(w, s, q), c);
    assert !HasBlame(NotCheckedOut(w, q.changes), c);
  }

  // ------------------------------------------------------------- a requested change that vanishes

  lemma {:induction false} WalkStaysInPair(w: World, m: Mode, k: Caches, a: ChangeId, b: ChangeId, p: seq<ChangeId>)
    requires Needs(w, m, k, a) == Ok([b]) && Needs(w, m, k, b) == Ok([])
    requires p != [] && p[0] in {a, b} && Walk(w, m, k, p)
    ensures p[|p| - 1] in {a, b}
  {
    if |p| > 1 {
      assert Edge(w, m, k, p[0], p[0 + 1]);
      WalkSuffix(w, m, k, p, 1);
      WalkStaysInPair(w, m, k, a, b, p[1..]);
    }
  }

  /** Change 0 needs change 1, which gerrit serves and no checkout holds. */
  const Vanishing: World := World(
    c => Some(if c == 0 then [1] else []),
    c => true, c => Found, c => false, c => true, c => if c == 0 then Some({7}) else None, (c, h) => Applied)

  lemma VanishingNeeds(m: Mode, k: Caches)
    requires m.limitTo.None? && k.committed == {}
    ensures Needs(Vanishing, m, k, 0) == Ok([1]) && Needs(Vanishing, m, k, 1) == Ok([])
  {
    var w := Vanishing;
    assert [1][1..] == [] && [1] + [] == [1];
    var k1 := Examine(w, m, k, 1).1;
    assert LookupAll(w, m, k1, []) == (Ok([]), k1) && LookupAll(w, m, k, []) == (Ok([]), k);
    assert LookupAll(w, m, k, [1]).0 == Ok([1]);
    assert Accepted(w, []) == [] && Accepted(w, [1]) == [1];
  }

  lemma VanishingGraph(m: Mode, k: Caches)
    requires m.limitTo.None? && k.committed == {}
    ensures forall x :: Reachable(Vanishing, m, k, 0, x) ==> x in {0, 1}
    ensures !LookupFails(Vanishing, m, k, 0) && !AllLocatable(Vanishing, m, k, 0)
  {
    var w := Vanishing;
    VanishingNeeds(m, k);
    forall x | Reachable(w, m, k, 0, x) ensures x in {0, 1} {
      var p :| |p| > 0 && p[0] == 0 && p[|p| - 1] == x && Walk(w, m, k, p);
      WalkStaysInPair(w, m, k, 0, 1, p);
    }
    assert Reachable(w, m, k, 0, 1) by {
      var p := [0, 1];
      assert Edge(w, m, k, p[0], p[1]) && p[0] == 0 && p[|p| - 1] == 1 && Walk(w, m, k, p);
    }
  }

  /** A request of which nothing is reported. */
  lemma VanishingChange()
    ensures var s := Series(Caches({}, {}, map[]), map[7 := []], map[], false);
            var o := Apply(Vanishing, s, Request([0], false, true, None));
            !Reported(o, 0)
  {
    var s, q := Series(Caches({}, {}, map[]), map[7 := []], map[], false), Request([0], false, true, None);
    assert [0][..0] == [] && Kept(Vanishing, [0]) == Kept(Vanishing, []) + [0] == [0];
    VanishingGraph(PlanningMode(Vanishing, s, q), PlanningCaches(Vanishing, s, q));
    ReportedInGraphExactlyWhen(Vanishing, s, q, 0, {0, 1});
  }
}
