/** `PatchSeries` itself: the caches and checkouts it updates in place. */
module PatchSeriesClass {
  import opened Basics
  import opened PatchModel
  import opened PlanProofs
  import opened Transactions
  import opened ApplySpec
  import ApplyTheorems

  /** The plan list and the `gerrit_deps_seen` cache that one planning call passes down. */
  class PlanBuilder {
    var plan: seq<ChangeId>
    var seen: set<ChangeId>

    constructor ()
      ensures plan == [] && seen == {}
    {
      plan, seen := [], {};
    }
  }

  /** The repos of every locatable member of `plan` are among `projects`. */
  ghost predicate Covers(w: World, plan: seq<ChangeId>, projects: set<Repo>) {
    forall c :: c in plan && w.repos(c).Some? ==> w.repos(c).value <= projects
  }

  function Reset(h: Histories, resets: Histories): Histories {
    map r | r in h :: if r in resets then resets[r] else h[r]
  }

  /** Resetting the involved repos undoes all a failed plan did. */
  lemma ResetRestores(w: World, before: RunState, after: RunState, p: Planned, projects: set<Repo>, resets: Histories)
    requires Covers(w, p.plan, projects)
    requires after == Transactions.ApplyChanges(w, before, p.change, p.plan).0
    requires resets == map r | r in projects && r in before.repos :: before.repos[r]
    ensures Reset(after.repos, resets) == before.repos
    ensures after.committed == before.committed
  {
    ApplySeqLocal(w, before, p.plan);
    forall r | r in before.repos && r !in projects ensures after.repos[r] == before.repos[r] {
      assert forall c :: c in p.plan && w.repos(c).Some? ==> r !in w.repos(c).value;
    }
  }

  class PatchSeries {
    const w: World
    var committed: set<ChangeId>
    var lookup: set<ChangeId>
    var changeDeps: map<ChangeId, seq<ChangeId>>
    var failedTot: map<ChangeId, PatchError>
    var submitting: bool
    /** The histories of the checked-out repos. */
    var repos: Histories

    /** The cached dependencies are what gerrit would answer. */
    ghost predicate Valid()
      reads this
    {
      TrueDeps(w, K())
    }

    function K(): Caches
      reads this
    {
      Caches(committed, lookup, changeDeps)
    }

    function State(): RunState
      reads this
    {
      RunState(repos, committed, failedTot)
    }

    function Value(): Series
      reads this
    {
      Series(K(), repos, failedTot, submitting)
    }

    constructor (w: World, repos: Histories, submitting: bool)
      ensures this.w == w && Valid()
      ensures Value() == Series(Caches({}, {}, map[]), repos, map[], submitting)
    {
      this.w, this.repos, this.submitting := w, repos, submitting;
      committed, lookup, changeDeps, failedTot := {}, {}, map[], map[];
    }

    method InjectCommittedPatches(changes: seq<ChangeId>)
      modifies this`committed
      ensures committed == old(committed) + Elements(changes)
    {
      committed := committed + Elements(changes);
    }

    method InjectLookupCache(changes: seq<ChangeId>)
      modifies this`lookup
      ensures lookup == old(lookup) + Elements(changes)
    {
      lookup := lookup + Elements(changes);
    }

    /** Asks gerrit about a change and remembers the answer. */
    method GetGerritPatch(d: ChangeId) returns (r: Result<Option<ChangeId>, Raised>)
      modifies this`lookup, this`committed
      ensures match w.query(d)
              case QueryFailed => r == Err(Gerrit) && K() == old(K())
              case Missing => r == Ok(None) && K() == old(K())
              case Found =>
                && r == Ok(Some(d)) && lookup == old(lookup) + {d} && changeDeps == old(changeDeps)
                && committed == old(committed) + (if w.merged(d) then {d} else {})
    {
      match w.query(d)
      case QueryFailed =>
        return Err(Gerrit);
      case Missing =>
        return Ok(None);
      case Found =>
        InjectLookupCache([d]);
        assert Elements([d]) == {d};
        if w.merged(d) {
          InjectCommittedPatches([d]);
        }
        return Ok(Some(d));
    }

    method LookupUncommittedChanges(deps: seq<ChangeId>, limitTo: Option<set<ChangeId>>)
      returns (r: Result<seq<ChangeId>, Raised>)
      modifies this`lookup, this`committed
      ensures (r, K()) == Lookup(w, Mode(limitTo, submitting), old(K()), deps)
    {
      ghost var m := Mode(limitTo, submitting);
      var unsatisfied := [];
      ghost var whole := LookupAll(w, m, K(), deps);
      assert deps[0..] == deps;
      assert whole.0.Ok? ==> [] + whole.0.value == whole.0.value;
      for i := 0 to |deps|
        invariant changeDeps == old(changeDeps)
        invariant var (rest, k) := LookupAll(w, m, K(), deps[i..]);
          LookupAll(w, m, old(K()), deps) ==
            (if rest.Ok? then Ok(unsatisfied + rest.value) else rest, k)
      {
        var dep := deps[i];
        assert deps[i..][0] == dep && deps[i..][1..] == deps[i + 1..];
        ghost var rest := LookupAll(w, m, Examine(w, m, K(), dep).1, deps[i + 1..]).0;
        assert rest.Ok? ==> unsatisfied + ([dep] + rest.value) == (unsatisfied + [dep]) + rest.value;
        if dep in committed || !w.helper(dep) {
          continue;
        }
        if dep !in lookup {
          ghost var was := K();
          var found := GetGerritPatch(dep);
          if found.Err? {
            return Err(found.error);
          }
          if found.value.None? {
            continue;
          }
          assert K() == Remember(w, was, dep);
        }
        if w.merged(dep) {
          continue;
        } else if limitTo.Some? && dep !in limitTo.value {
          return Err(Patch(PatchError(dep, false, if submitting then Rejected else NotEligible)));
        }
        unsatisfied := unsatisfied + [dep];
      }
      assert deps[|deps|..] == [];
      assert unsatisfied + [] == unsatisfied;
      r := Ok(Accepted(w, unsatisfied));
    }

    /** The direct dependencies of a change, cached; a gerrit failure is blamed on the change. */
    method GetDepsForChange(c: ChangeId) returns (r: Result<seq<ChangeId>, PatchError>)
      modifies this`changeDeps
      ensures var (deps, k) := FetchDeps(w, old(K()), c);
              K() == k && r == if deps.Some? then Ok(deps.value) else Err(Wrap(c, Gerrit))
    {
      if c in changeDeps {
        return Ok(changeDeps[c]);
      }
      var deps := w.gerritDeps(c);
      if deps.None? {
        return Err(Wrap(c, Gerrit));
      }
      changeDeps := changeDeps[c := deps.value];
      r := Ok(deps.value);
    }

    function Progress(b: PlanBuilder): PlanState
      reads this, b
    {
      PlanState(b.plan, b.seen, K())
    }

    /** Adds `c` and, depth first, everything it needs to the plan under construction. */
    method AddChangeToPlanWithDeps(c: ChangeId, b: PlanBuilder, limitTo: Option<set<ChangeId>>, remainingDepth: nat)
      returns (error: Option<PatchError>)
      modifies this`lookup, this`committed, this`changeDeps, b
      ensures Visited(Progress(b), error)
           == Visit(w, Mode(limitTo, submitting), c, old(Progress(b)), remainingDepth)
      decreases remainingDepth, 0
    {
      if c in committed {
        return None;
      }
      if remainingDepth == 0 {
        return Some(PatchError(c, false, RecursionLimit));
      }
      var deps := GetDepsForChange(c);
      if deps.Err? {
        return Some(deps.error);
      }
      if c !in b.seen {
        var needs := LookupUncommittedChanges(deps.value, limitTo);
        if needs.Err? {
          return Some(Wrap(c, needs.error));
        }
        b.seen := b.seen + {c};
        var e := AddEach(needs.value, b, limitTo, remainingDepth - 1);
        if e.Some? {
          return Some(Wrap(c, Patch(e.value)));
        }
      }
      if c !in b.plan {
        b.plan := b.plan + [c];
      }
      error := None;
    }

    /** Adds changes one after another, stopping at the first error. */
    method AddEach(cs: seq<ChangeId>, b: PlanBuilder, limitTo: Option<set<ChangeId>>, remainingDepth: nat)
      returns (error: Option<PatchError>)
      modifies this`lookup, this`committed, this`changeDeps, b
      ensures Visited(Progress(b), error)
           == VisitAll(w, Mode(limitTo, submitting), cs, old(Progress(b)), remainingDepth)
      decreases remainingDepth, 1
    {
      ghost var m := Mode(limitTo, submitting);
      assert cs[0..] == cs;
      for i := 0 to |cs|
        invariant VisitAll(w, m, cs, old(Progress(b)), remainingDepth)
               == VisitAll(w, m, cs[i..], Progress(b), remainingDepth)
      {
        assert cs[i..][0] == cs[i] && cs[i..][1..] == cs[i + 1..];
        error := AddChangeToPlanWithDeps(cs[i], b, limitTo, remainingDepth);
        if error.Some? {
          return;
        }
      }
      assert cs[|cs|..] == [];
      error := None;
    }

    method CreateTransaction(c: ChangeId, limitTo: Option<set<ChangeId>>) returns (p: Proposal)
      modifies this`lookup, this`committed, this`changeDeps
      ensures (p, K()) == Propose(w, Mode(limitTo, submitting), old(K()), c, MAX_PLAN_RECURSION)
    {
      var b := new PlanBuilder();
      var e := AddChangeToPlanWithDeps(c, b, limitTo, MAX_PLAN_RECURSION);
      p := Proposal(c, if e.Some? then [] else b.plan, e);
    }

    method CreateTransactions(changes: seq<ChangeId>, limitTo: Option<set<ChangeId>>) returns (ps: seq<Proposal>)
      modifies this`lookup, this`committed, this`changeDeps
      ensures (ps, K()) == PlanEach(w, Mode(limitTo, submitting), old(K()), changes, MAX_PLAN_RECURSION)
    {
      ps := [];
      for i := 0 to |changes|
        invariant (ps, K()) == PlanEach(w, Mode(limitTo, submitting), old(K()), changes[..i], MAX_PLAN_RECURSION)
      {
        var p := CreateTransaction(changes[i], limitTo);
        assert changes[..i + 1][..i] == changes[..i];
        ps := ps + [p];
      }
      assert changes[..|changes|] == changes;
    }

    /** Cherry-picks one change into the repos recorded for it. */
    method ApplyChange(c: ChangeId) returns (error: Option<PatchError>)
      modifies this`repos
      ensures (repos, error) == ApplyOne(w, old(repos), c)
    {
      var rs := w.repos(c);
      if rs.None? {
        return Some(PatchError(c, false, NotInManifest));
      }
      var verdict := w.attempt(c, repos);
      match verdict
      case Applied =>
        repos := Extend(repos, rs.value, c);
        error := None;
      case Failed(inflight, debris) =>
        repos := Litter(repos, rs.value, debris);
        error := Some(PatchError(c, inflight, Conflict));
    }

    /** Applies a plan without any rollback; on an error the repos may be left in disarray. */
    method ApplyChanges(inducing: ChangeId, changes: seq<ChangeId>) returns (error: Option<PatchError>)
      modifies this`repos, this`failedTot
      ensures (State(), error) == Transactions.ApplyChanges(w, old(State()), inducing, changes)
    {
      for i := 0 to |changes|
        invariant repos == old(repos) && failedTot == old(failedTot)
        invariant FirstKnownBad(failedTot, changes) == FirstKnownBad(failedTot, changes[i..])
      {
        assert changes[i..][0] == changes[i] && changes[i..][1..] == changes[i + 1..];
        if changes[i] in failedTot {
          return Some(Wrap(inducing, Patch(failedTot[changes[i]])));
        }
      }
      for i := 0 to |changes|
        invariant failedTot == old(failedTot)
        invariant ApplySeq(w, old(State()), changes) == ApplySeq(w, State(), changes[i..])
      {
        var c := changes[i];
        assert changes[i..][0] == c && changes[i..][1..] == changes[i + 1..];
        if c in committed {
          continue;
        }
        var e := ApplyChange(c);
        if e.Some? {
          if !e.value.inflight {
            failedTot := failedTot[c := e.value];
          }
          return Some(Wrap(inducing, Patch(e.value)));
        }
      }
      error := None;
    }

    /**
      One attempt: notes the heads of all repos of the plan, applies it, and on
      an error resets exactly those repos and the committed set.
     */
    method Transaction(p: Planned) returns (error: Option<PatchError>)
      modifies this`repos, this`failedTot, this`committed
      ensures (State(), error) == Attempt(w, old(State()), p)
    {
      var missing, projects := InvolvedRepos(p.plan);
      if missing.Some? {
        return Some(PatchError(missing.value, false, NotInManifest));
      }
      var resets := map r | r in projects && r in repos :: repos[r];
      var saved := committed;
      error := ApplyChanges(p.change, p.plan);
      if error.Some? {
        ResetRestores(w, old(State()), State(), p, projects, resets);
        repos := Reset(repos, resets);
        committed := saved;
      } else {
        InjectCommittedPatches(p.plan);
      }
    }

    /** The repos recorded for the members of a plan, unless a member is in no checkout. */
    method InvolvedRepos(plan: seq<ChangeId>) returns (missing: Option<ChangeId>, projects: set<Repo>)
      ensures missing == FirstMissing(w, plan)
      ensures missing.None? ==> Covers(w, plan, projects)
    {
      projects := {};
      assert plan[0..] == plan;
      for i := 0 to |plan|
        invariant FirstMissing(w, plan) == FirstMissing(w, plan[i..])
        invariant Covers(w, plan[..i], projects)
      {
        var c := plan[i];
        assert plan[i..][0] == c && plan[i..][1..] == plan[i + 1..];
        if w.repos(c).None? {
          return Some(c), projects;
        }
        assert forall x :: x in plan[..i + 1] ==> x in plan[..i] || x == c;
        projects := projects + w.repos(c).value;
      }
      assert plan[..|plan|] == plan;
      missing := None;
    }

    /** Keeps the changes that are served and checked out; reports those not checked out. */
    method FetchChanges(changes: seq<ChangeId>) returns (kept: seq<ChangeId>, failed: seq<PatchError>)
      ensures kept == Kept(w, changes) && failed == NotCheckedOut(w, changes)
    {
      kept, failed := [], [];
      for i := 0 to |changes|
        invariant kept == Kept(w, changes[..i])
        invariant failed == NotCheckedOut(w, changes[..i])
      {
        var c := changes[i];
        assert changes[..i + 1][..i] == changes[..i];
        if !w.helper(c) {
          continue;
        }
        if w.repos(c).None? {
          failed := failed + [PatchError(c, false, NotInManifest)];
          continue;
        }
        kept := kept + [c];
      }
      assert changes[..|changes|] == changes;
    }

    /** Fetches the requested changes and resolves each into a plan. */
    method Resolve(q: Request) returns (changes: seq<ChangeId>, resolved: seq<Planned>, failed: seq<PatchError>)
      modifies this`lookup, this`committed, this`changeDeps
      ensures changes == Considered(w, q)
      ensures resolved == Resolved(Proposals(w, old(Value()), q).0)
      ensures failed == EarlyErrors(w, old(Value()), q)
      ensures K() == Proposals(w, old(Value()), q).1
    {
      ghost var before := Value();
      changes, failed := FetchChanges(q.changes);
      if q.filter.Some? {
        changes := q.filter.value(changes);
      }
      InjectLookupCache(changes);
      assert K() == PlanningCaches(w, before, q);
      var proposals := CreateTransactions(changes, if q.frozen then Some(Elements(changes)) else None);
      assert (proposals, K()) == Proposals(w, before, q);
      var planErrors;
      resolved, planErrors := Sift(proposals);
      failed := failed + planErrors;
    }

    /**
      Resolves the changes into transactions and applies as many as possible,
      each in full or not at all.
     */
    method Apply(q: Request)
      returns (applied: seq<ChangeId>, failedToT: seq<PatchError>, failedInflight: seq<PatchError>)
      requires Valid()
      modifies this
      ensures Valid()
      ensures repos.Keys == old(repos).Keys
      ensures forall g :: g in repos ==> repos[g] == old(repos)[g] + Touching(w, applied, g)
      ensures forall e :: e in failedToT + failedInflight ==> e.patch !in applied
      ensures Outcome(Value(), applied, failedToT, failedInflight) == ApplySpec.Apply(w, old(Value()), q)
    {
      ghost var before := Value();
      ApplyTheorems.ApplyKeepsTrueDeps(w, before, q);
      ApplyTheorems.ApplyIsAtomic(w, before, q);
      ApplyTheorems.OutcomesAreDisjoint(w, before, q);
      var changes, resolved, failed := Resolve(q);
      if resolved == [] {
        return [], failed, [];
      }
      if !q.honorOrdering {
        resolved := SortPlans(changes, resolved);
      }
      assert resolved == Todo(w, before, q) && State() == RunStart(w, before, q);
      var conflicts;
      applied, conflicts := AttemptEach(resolved);
      failed := failed + conflicts;
      applied := Uniq(applied);
      submitting := true;
      failed := Unapplied(failed, applied);
      failedToT, failedInflight := WithInflight(failed, false), WithInflight(failed, true);
    }

    /** Separates resolved plans from planning errors. */
    method Sift(proposals: seq<Proposal>) returns (resolved: seq<Planned>, failed: seq<PatchError>)
      ensures resolved == Resolved(proposals) && failed == PlanErrors(proposals)
    {
      resolved, failed := [], [];
      for i := 0 to |proposals|
        invariant resolved == Resolved(proposals[..i])
        invariant failed == PlanErrors(proposals[..i])
      {
        var p := proposals[i];
        assert proposals[..i + 1][..i] == proposals[..i];
        if p.error.Some? {
          failed := failed + [p.error.value];
        } else {
          resolved := resolved + [Planned(p.change, p.plan)];
        }
      }
      assert proposals[..|proposals|] == proposals;
    }

    /** Attempts the transactions one after another. */
    method AttemptEach(todo: seq<Planned>) returns (applied: seq<ChangeId>, failed: seq<PatchError>)
      modifies this`repos, this`failedTot, this`committed
      ensures Report(State(), applied, failed) == RunAll(w, old(State()), todo)
    {
      applied, failed := [], [];
      for i := 0 to |todo|
        invariant Report(State(), applied, failed) == RunAll(w, old(State()), todo[..i])
      {
        assert todo[..i + 1][..i] == todo[..i];
        var e := Transaction(todo[i]);
        if e.Some? {
          failed := failed + [e.value];
        } else {
          applied := applied + todo[i].plan;
        }
      }
      assert todo[..|todo|] == todo;
    }
  }
}
