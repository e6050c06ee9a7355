/** What a successful plan contains and in which order, and what a failed one blames. */
module PlanProofs {
  import opened Basics
  import opened PatchModel

  // -------------------------------------------- planning does not depend on cache growth

  /**
    `k` is `k0` after some planning: only changes that gerrit reports as merged
    became committed, and the dependency cache holds true dependencies.
   */
  ghost predicate Grown(w: World, k0: Caches, k: Caches) {
    && k0.committed <= k.committed
    && k0.lookup <= k.lookup
    && (forall d :: d in k.committed && d !in k0.committed ==> w.merged(d) && d !in k0.lookup)
    && (forall d :: d in k.committed && d !in k0.committed ==> w.query(d) == Found)
    && (forall d :: d in k.lookup && d !in k0.lookup ==> w.query(d) == Found)
    && (forall d :: d in k.deps ==> w.gerritDeps(d) == Some(k.deps[d]))
  }

  /** The dependency cache holds true dependencies. */
  ghost predicate TrueDeps(w: World, k: Caches) {
    forall d :: d in k.deps ==> w.gerritDeps(d) == Some(k.deps[d])
  }

  lemma GrownTransitive(w: World, k0: Caches, k1: Caches, k2: Caches)
    requires Grown(w, k0, k1) && Grown(w, k1, k2)
    ensures Grown(w, k0, k2)
  {
  }

  lemma ExamineStable(w: World, m: Mode, k0: Caches, k: Caches, d: ChangeId)
    requires Grown(w, k0, k)
    ensures Examine(w, m, k, d).0 == Examine(w, m, k0, d).0
    ensures Grown(w, k0, Examine(w, m, k, d).1)
    ensures Grown(w, k, Examine(w, m, k, d).1)
  {
  }

  lemma {:induction false} LookupAllStable(w: World, m: Mode, k0: Caches, k: Caches, ds: seq<ChangeId>)
    requires Grown(w, k0, k) && TrueDeps(w, k0)
    ensures LookupAll(w, m, k, ds).0 == LookupAll(w, m, k0, ds).0
    ensures Grown(w, k0, LookupAll(w, m, k, ds).1)
    ensures Grown(w, k, LookupAll(w, m, k, ds).1)
    decreases |ds|
  {
    if ds != [] {
      ExamineStable(w, m, k0, k, ds[0]);
      ExamineStable(w, m, k0, k0, ds[0]);
      var k1 := Examine(w, m, k, ds[0]).1;
      var j1 := Examine(w, m, k0, ds[0]).1;
      LookupAllStable(w, m, k0, k1, ds[1..]);
      LookupAllStable(w, m, k0, j1, ds[1..]);
      LookupAllStable(w, m, k1, k1, ds[1..]);
    }
  }

  ghost predicate StillNeeded(w: World, m: Mode, k: Caches, c: ChangeId) {
    c !in k.committed && !w.merged(c) && (m.limitTo.Some? ==> c in m.limitTo.value)
  }

  /** A dependency outside the allowed changes was refused. */
  ghost predicate Refusal(ds: seq<ChangeId>, e: PatchError) {
    e.patch in ds && !e.inflight && (e.cause == Rejected || e.cause == NotEligible)
  }

  /** A dependency that is still needed is unmerged and was not committed. */
  lemma {:induction false} LookupAllUncommitted(w: World, m: Mode, k: Caches, ds: seq<ChangeId>)
    ensures var r := LookupAll(w, m, k, ds).0;
            if r.Ok? then forall c :: c in r.value ==> c in ds && StillNeeded(w, m, k, c)
            else r.error.Patch? ==> Refusal(ds, r.error.error)
    decreases |ds|
  {
    if ds != [] {
      LookupAllUncommitted(w, m, Examine(w, m, k, ds[0]).1, ds[1..]);
    }
  }

  lemma NeedsFacts(w: World, m: Mode, k0: Caches, k: Caches, c: ChangeId)
    requires Grown(w, k0, k) && TrueDeps(w, k0)
    ensures forall d :: Edge(w, m, k0, c, d) ==> d in w.gerritDeps(c).value && StillNeeded(w, m, k, d)
    ensures Needs(w, m, k0, c).Err? ==>
              var e := Needs(w, m, k0, c).error;
              e.patch == c && !e.inflight && BlameChain(w, e) && RootCause(e) != RecursionLimit
  {
    if w.gerritDeps(c).Some? {
      LookupAllUncommitted(w, m, k0, w.gerritDeps(c).value);
    }
  }

  /** The lookup done in the middle of planning finds exactly `Needs`. */
  lemma FetchAndLookup(w: World, m: Mode, k0: Caches, k: Caches, c: ChangeId)
    requires Grown(w, k0, k) && TrueDeps(w, k0)
    ensures var (deps, k1) := FetchDeps(w, k, c);
            && Grown(w, k0, k1) && Grown(w, k, k1) && deps == w.gerritDeps(c)
            && (deps.Some? ==>
                  var (r, k2) := Lookup(w, m, k1, deps.value);
                  && Grown(w, k0, k2) && Grown(w, k, k2)
                  && Needs(w, m, k0, c) == if r.Ok? then Ok(r.value) else Err(Wrap(c, r.error)))
  {
    var (deps, k1) := FetchDeps(w, k, c);
    if deps.Some? {
      LookupAllStable(w, m, k0, k1, deps.value);
      LookupAllStable(w, m, k1, k1, deps.value);
    }
  }

  // --------------------------------------------------------------- blame

  /** Every wrapped exception is about a direct dependency of the change it is wrapped for. */
  ghost predicate BlameChain(w: World, e: PatchError) {
    e.cause.DependsOn? ==>
      && w.gerritDeps(e.patch).Some?
      && e.cause.error.patch in w.gerritDeps(e.patch).value
      && e.cause.error.patch != e.patch
      && e.inflight == e.cause.error.inflight
      && BlameChain(w, e.cause.error)
  }

  ghost function RootCause(e: PatchError): Cause {
    if e.cause.DependsOn? then RootCause(e.cause.error) else e.cause
  }

  /** `origin` is what `e` was raised as, before it was wrapped for dependents. */
  ghost predicate Stems(e: PatchError, origin: PatchError) {
    e == origin || (e.cause.DependsOn? && Stems(e.cause.error, origin))
  }

  lemma {:induction false} StemsFromRoot(e: PatchError, origin: PatchError)
    requires Stems(e, origin)
    ensures RootCause(e) == RootCause(origin)
  {
    if e != origin {
      StemsFromRoot(e.cause.error, origin);
    }
  }

  // ---------------------------------------------------------- walk algebra

  lemma WalkExtend(w: World, m: Mode, k: Caches, p: seq<ChangeId>, c: ChangeId)
    requires Walk(w, m, k, p)
    requires p != [] ==> Edge(w, m, k, p[|p| - 1], c)
    ensures Walk(w, m, k, p + [c])
  {
    var q := p + [c];
    forall i | 0 <= i < |q| - 1 ensures Edge(w, m, k, q[i], q[i + 1]) {
      if i < |p| - 1 {
        assert Edge(w, m, k, p[i], p[i + 1]);
      }
    }
  }

  lemma WalkSuffix(w: World, m: Mode, k: Caches, p: seq<ChangeId>, i: nat)
    requires Walk(w, m, k, p) && i <= |p|
    ensures Walk(w, m, k, p[i..])
  {
    var q := p[i..];
    forall j | 0 <= j < |q| - 1 ensures Edge(w, m, k, q[j], q[j + 1]) {
      assert Edge(w, m, k, p[i + j], p[i + j + 1]);
    }
  }

  // ------------------------------------------------------- the walk's invariant

  /** Every dependency of `c` that is still needed comes before position `i`. */
  ghost predicate NeedsBefore(w: World, m: Mode, k: Caches, plan: seq<ChangeId>, i: nat, c: ChangeId)
    requires i <= |plan|
  {
    forall d :: Edge(w, m, k, c, d) ==> d in plan[..i]
  }

  /** Unless a change lies on a cycle, all it needs precedes it. */
  ghost predicate Ordered(w: World, m: Mode, k: Caches, plan: seq<ChangeId>) {
    forall i :: 0 <= i < |plan| ==> OnCycle(w, m, k, plan[i]) || NeedsBefore(w, m, k, plan, i, plan[i])
  }

  ghost predicate Explored(w: World, m: Mode, k: Caches, plan: seq<ChangeId>, c: ChangeId) {
    forall d :: Edge(w, m, k, c, d) ==> d in plan
  }

  /** `stack` lists the changes whose dependencies are being walked, outermost first. */
  ghost predicate Inv(w: World, m: Mode, k0: Caches, s: PlanState, root: ChangeId, stack: seq<ChangeId>) {
    && TrueDeps(w, k0)
    && Grown(w, k0, s.k)
    && NoDup(s.plan)
    && NoDup(stack)
    && Walk(w, m, k0, stack)
    && (forall x :: x in s.plan || x in stack ==> x in s.seen)
    && (forall x :: x in s.seen ==> x in s.plan || x in stack)
    && (forall x :: x in s.seen ==> Needs(w, m, k0, x).Ok?)
    && (forall x :: x in s.seen ==> Reachable(w, m, k0, root, x))
    && (forall x :: x in s.seen && x !in stack ==> Explored(w, m, k0, s.plan, x))
    && Ordered(w, m, k0, s.plan)
  }

  ghost predicate EntryPoint(w: World, m: Mode, k0: Caches, root: ChangeId, stack: seq<ChangeId>, c: ChangeId) {
    if stack == [] then c == root
    else stack[0] == root && Edge(w, m, k0, stack[|stack| - 1], c)
  }

  /** Only a simple dependency walk of `limit` changes, with one more dependency `x`, can exhaust the depth. */
  ghost predicate LongWalk(w: World, m: Mode, k0: Caches, root: ChangeId, limit: nat, x: ChangeId) {
    exists p :: |p| == limit && NoDup(p) && LeadsTo(w, m, k0, root, p, x)
  }

  ghost predicate LeadsTo(w: World, m: Mode, k0: Caches, root: ChangeId, p: seq<ChangeId>, x: ChangeId) {
    && Walk(w, m, k0, p + [x]) && (p + [x])[0] == root
    && forall y :: y in p ==> Reachable(w, m, k0, root, y)
  }

  /** The error of a change whose own dependencies cannot be looked up, or that is met with no depth left. */
  ghost predicate Origin(w: World, m: Mode, k0: Caches, root: ChangeId, origin: PatchError, limit: nat) {
    && Reachable(w, m, k0, root, origin.patch)
    && if origin.cause == RecursionLimit then LongWalk(w, m, k0, root, limit, origin.patch)
       else Needs(w, m, k0, origin.patch) == Err(origin)
  }

  ghost predicate Blamed(w: World, m: Mode, k0: Caches, root: ChangeId, c: ChangeId, e: PatchError, limit: nat) {
    && e.patch == c
    && !e.inflight
    && BlameChain(w, e)
    && exists origin :: Stems(e, origin) && Origin(w, m, k0, root, origin, limit)
  }

  /** The outcome of walking `cs` below `stack`. */
  ghost predicate Progress(w: World, m: Mode, k0: Caches, root: ChangeId, stack: seq<ChangeId>,
                           s: PlanState, v: Visited, cs: seq<ChangeId>, limit: nat)
  {
    && Grown(w, s.k, v.state.k)
    && (if v.error.Some? then
          v.error.value.patch in cs && Blamed(w, m, k0, root, v.error.value.patch, v.error.value, limit)
        else
          && Inv(w, m, k0, v.state, root, stack)
          && s.plan <= v.state.plan
          && s.seen <= v.state.seen
          && forall c :: c in cs ==> c in v.state.plan)
  }

  lemma {:induction false} VisitProgress(w: World, m: Mode, k0: Caches, root: ChangeId, stack: seq<ChangeId>,
                                         c: ChangeId, s: PlanState, depth: nat, limit: nat)
    requires Inv(w, m, k0, s, root, stack)
    requires EntryPoint(w, m, k0, root, stack, c)
    requires c !in s.k.committed
    requires |stack| + depth == limit
    ensures Progress(w, m, k0, root, stack, s, Visit(w, m, c, s, depth), [c], limit)
    decreases depth, 0
  {
    Arrive(w, m, k0, root, stack, c, s);
    var (deps, k1) := FetchDeps(w, s.k, c);
    if depth == 0 {
      Exhausted(w, m, k0, root, stack, c, s, limit);
    } else if deps.None? || (c !in s.seen && Lookup(w, m, k1, deps.value).0.Err?) {
      LookupFailed(w, m, k0, root, stack, c, s, depth, limit);
    } else if c in s.seen {
      Revisit(w, m, k0, root, stack, c, s, depth, limit);
    } else {
      var (needs, k2) := Lookup(w, m, k1, deps.value);
      DescentProgress(w, m, k0, root, stack, c, s, needs.value, s.(k := k2, seen := s.seen + {c}), depth, limit);
    }
  }

  lemma {:induction false} DescentProgress(w: World, m: Mode, k0: Caches, root: ChangeId, stack: seq<ChangeId>,
                                           c: ChangeId, s: PlanState, needs: seq<ChangeId>, s1: PlanState,
                                           depth: nat, limit: nat)
    requires Inv(w, m, k0, s, root, stack)
    requires Deeper(w, m, c, s, needs, s1)
    requires Reachable(w, m, k0, root, c) && Walk(w, m, k0, stack + [c]) && (stack + [c])[0] == root
    requires depth > 0 && |stack| + depth == limit
    ensures Progress(w, m, k0, root, stack, s, Visit(w, m, c, s, depth), [c], limit)
    decreases depth - 1, 2 + |needs|
  {
    Descend(w, m, k0, root, stack, c, s, needs, s1);
    VisitAllProgress(w, m, k0, root, stack + [c], needs, s1, depth - 1, limit);
    Return(w, m, k0, root, stack, c, s, needs, s1, depth, limit);
  }

  lemma {:induction false} VisitAllProgress(w: World, m: Mode, k0: Caches, root: ChangeId, stack: seq<ChangeId>,
                                            cs: seq<ChangeId>, s: PlanState, depth: nat, limit: nat)
    requires Inv(w, m, k0, s, root, stack)
    requires stack != [] && stack[0] == root
    requires forall c :: c in cs ==> Edge(w, m, k0, stack[|stack| - 1], c)
    requires |stack| + depth == limit
    ensures Progress(w, m, k0, root, stack, s, VisitAll(w, m, cs, s, depth), cs, limit)
    decreases depth, 1 + |cs|
  {
    if cs != [] {
      var c := cs[0];
      assert forall x :: x in cs[1..] ==> x in cs;
      assert c in cs;
      NeedsFacts(w, m, k0, s.k, stack[|stack| - 1]);
      VisitProgress(w, m, k0, root, stack, c, s, depth, limit);
      var v := Visit(w, m, c, s, depth);
      if v.error.None? {
        VisitAllProgress(w, m, k0, root, stack, cs[1..], v.state, depth, limit);
        Chain(w, m, k0, root, stack, s, v, VisitAll(w, m, cs[1..], v.state, depth), cs, limit);
      }
    }
  }

  lemma Chain(w: World, m: Mode, k0: Caches, root: ChangeId, stack: seq<ChangeId>, s: PlanState,
              v: Visited, u: Visited, cs: seq<ChangeId>, limit: nat)
    requires cs != [] && v.error.None?
    requires Progress(w, m, k0, root, stack, s, v, [cs[0]], limit)
    requires Progress(w, m, k0, root, stack, v.state, u, cs[1..], limit)
    ensures Progress(w, m, k0, root, stack, s, u, cs, limit)
  {
    GrownTransitive(w, s.k, v.state.k, u.state.k);
    assert cs[0] in [cs[0]];
    assert forall x :: x in cs ==> x == cs[0] || x in cs[1..];
  }

  lemma Arrive(w: World, m: Mode, k0: Caches, root: ChangeId, stack: seq<ChangeId>, c: ChangeId, s: PlanState)
    requires Inv(w, m, k0, s, root, stack)
    requires EntryPoint(w, m, k0, root, stack, c)
    ensures Walk(w, m, k0, stack + [c]) && (stack + [c])[0] == root
    ensures Reachable(w, m, k0, root, c)
  {
    WalkExtend(w, m, k0, stack, c);
    var path := stack + [c];
    assert path[0] == root && path[|path| - 1] == c;
  }

  lemma Exhausted(w: World, m: Mode, k0: Caches, root: ChangeId, stack: seq<ChangeId>, c: ChangeId, s: PlanState, limit: nat)
    requires Inv(w, m, k0, s, root, stack) && |stack| == limit && c !in s.k.committed
    requires Walk(w, m, k0, stack + [c]) && (stack + [c])[0] == root && Reachable(w, m, k0, root, c)
    ensures Progress(w, m, k0, root, stack, s, Visit(w, m, c, s, 0), [c], limit)
  {
    assert forall x :: x in stack ==> Reachable(w, m, k0, root, x);
    assert LeadsTo(w, m, k0, root, stack, c);
    var e := PatchError(c, false, RecursionLimit);
    assert Stems(e, e) && Origin(w, m, k0, root, e, limit);
    assert Visit(w, m, c, s, 0) == Visited(s, Some(e));
  }

  lemma LookupFailed(w: World, m: Mode, k0: Caches, root: ChangeId, stack: seq<ChangeId>,
                     c: ChangeId, s: PlanState, depth: nat, limit: nat)
    requires TrueDeps(w, k0) && Grown(w, k0, s.k)
    requires Reachable(w, m, k0, root, c) && c !in s.k.committed && depth > 0
    requires var (deps, k1) := FetchDeps(w, s.k, c);
             deps.None? || (c !in s.seen && Lookup(w, m, k1, deps.value).0.Err?)
    ensures Progress(w, m, k0, root, stack, s, Visit(w, m, c, s, depth), [c], limit)
  {
    FetchAndLookup(w, m, k0, s.k, c);
    NeedsFacts(w, m, k0, s.k, c);
    var e := Needs(w, m, k0, c).error;
    assert Stems(e, e) && Origin(w, m, k0, root, e, limit);
    assert Visit(w, m, c, s, depth).error == Some(e);
  }

  /** The state in which the dependencies of a change met for the first time are walked. */
  ghost predicate Deeper(w: World, m: Mode, c: ChangeId, s: PlanState, needs: seq<ChangeId>, s1: PlanState) {
    var (deps, k1) := FetchDeps(w, s.k, c);
    && c !in s.k.committed && c !in s.seen && deps.Some?
    && Lookup(w, m, k1, deps.value) == (Ok(needs), s1.k)
    && s1 == s.(k := s1.k, seen := s.seen + {c})
  }

  lemma Descend(w: World, m: Mode, k0: Caches, root: ChangeId, stack: seq<ChangeId>, c: ChangeId,
                s: PlanState, needs: seq<ChangeId>, s1: PlanState)
    requires Inv(w, m, k0, s, root, stack)
    requires Deeper(w, m, c, s, needs, s1)
    requires Reachable(w, m, k0, root, c)
    requires Walk(w, m, k0, stack + [c])
    ensures Inv(w, m, k0, s1, root, stack + [c])
    ensures Needs(w, m, k0, c) == Ok(needs) && Grown(w, s.k, s1.k)
  {
    FetchAndLookup(w, m, k0, s.k, c);
    var path := stack + [c];
    assert forall x :: x in path <==> x in stack || x == c;
  }

  lemma Return(w: World, m: Mode, k0: Caches, root: ChangeId, stack: seq<ChangeId>, c: ChangeId,
               s: PlanState, needs: seq<ChangeId>, s1: PlanState, depth: nat, limit: nat)
    requires TrueDeps(w, k0) && Grown(w, s.k, s1.k) && depth > 0
    requires Deeper(w, m, c, s, needs, s1)
    requires Needs(w, m, k0, c) == Ok(needs)
    requires Progress(w, m, k0, root, stack + [c], s1, VisitAll(w, m, needs, s1, depth - 1), needs, limit)
    ensures Progress(w, m, k0, root, stack, s, Visit(w, m, c, s, depth), [c], limit)
  {
    var v := VisitAll(w, m, needs, s1, depth - 1);
    var r := Visit(w, m, c, s, depth);
    GrownTransitive(w, s.k, s1.k, v.state.k);
    if v.error.Some? {
      WrapBlame(w, m, k0, root, c, v.error.value, limit);
      assert r == Visited(v.state, Some(Wrap(c, Patch(v.error.value))));
    } else {
      Finish(w, m, k0, root, stack, c, v.state);
      assert r == Visited(AppendOnce(v.state, c), None);
    }
  }

  lemma Revisit(w: World, m: Mode, k0: Caches, root: ChangeId, stack: seq<ChangeId>, c: ChangeId,
                s: PlanState, depth: nat, limit: nat)
    requires Inv(w, m, k0, s, root, stack)
    requires c !in s.k.committed && c in s.seen && depth > 0 && FetchDeps(w, s.k, c).0.Some?
    requires Walk(w, m, k0, stack + [c])
    ensures Progress(w, m, k0, root, stack, s, Visit(w, m, c, s, depth), [c], limit)
  {
    FetchAndLookup(w, m, k0, s.k, c);
    var s1 := s.(k := FetchDeps(w, s.k, c).1);
    RevisitProgress(w, m, k0, root, stack, c, s1);
    assert Visit(w, m, c, s, depth) == Visited(AppendOnce(s1, c), None);
  }

  /** Appending keeps the order of what is already there. */
  lemma AppendOrdered(w: World, m: Mode, k0: Caches, plan: seq<ChangeId>, c: ChangeId)
    requires Ordered(w, m, k0, plan)
    requires OnCycle(w, m, k0, c) || Explored(w, m, k0, plan, c)
    ensures Ordered(w, m, k0, plan + [c])
  {
    var q := plan + [c];
    forall i | 0 <= i < |q| ensures OnCycle(w, m, k0, q[i]) || NeedsBefore(w, m, k0, q, i, q[i]) {
      assert q[..i] == plan[..i];
      if i == |plan| {
        assert plan[..i] == plan;
      } else {
        assert OnCycle(w, m, k0, plan[i]) || NeedsBefore(w, m, k0, plan, i, plan[i]);
      }
    }
  }

  lemma Finish(w: World, m: Mode, k0: Caches, root: ChangeId, stack: seq<ChangeId>, c: ChangeId, s: PlanState)
    requires Inv(w, m, k0, s, root, stack + [c])
    requires forall d :: Edge(w, m, k0, c, d) ==> d in s.plan
    ensures Inv(w, m, k0, AppendOnce(s, c), root, stack)
  {
    var path := stack + [c];
    assert forall x :: x in path <==> x in stack || x == c;
    assert NoDup(stack) by {
      forall i, j | 0 <= i < j < |stack| ensures stack[i] != stack[j] {
        assert path[i] != path[j];
      }
    }
    assert Walk(w, m, k0, stack) by {
      forall i | 0 <= i < |stack| - 1 ensures Edge(w, m, k0, stack[i], stack[i + 1]) {
        assert Edge(w, m, k0, path[i], path[i + 1]);
      }
    }
    if c !in s.plan {
      AppendOrdered(w, m, k0, s.plan, c);
    }
  }

  /** A change met again while it is still being walked lies on a cycle. */
  lemma RevisitProgress(w: World, m: Mode, k0: Caches, root: ChangeId, stack: seq<ChangeId>, c: ChangeId, s: PlanState)
    requires Inv(w, m, k0, s, root, stack)
    requires c in s.seen
    requires Walk(w, m, k0, stack + [c])
    ensures Inv(w, m, k0, AppendOnce(s, c), root, stack)
  {
    if c !in s.plan {
      var i :| 0 <= i < |stack| && stack[i] == c;
      var loop := (stack + [c])[i..];
      WalkSuffix(w, m, k0, stack + [c], i);
      assert loop[0] == c && loop[|loop| - 1] == c && |loop| > 1;
      assert OnCycle(w, m, k0, c);
      AppendOrdered(w, m, k0, s.plan, c);
    }
  }

  lemma WrapBlame(w: World, m: Mode, k0: Caches, root: ChangeId, c: ChangeId, e: PatchError, limit: nat)
    requires Blamed(w, m, k0, root, e.patch, e, limit)
    requires Edge(w, m, k0, c, e.patch) && TrueDeps(w, k0)
    ensures Blamed(w, m, k0, root, c, Wrap(c, Patch(e)), limit)
  {
    NeedsFacts(w, m, k0, k0, c);
    var origin :| Stems(e, origin) && Origin(w, m, k0, root, origin, limit);
    assert Stems(Wrap(c, Patch(e)), origin);
  }
}
