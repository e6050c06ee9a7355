/**
  What planning promises, for every dependency graph, cyclic ones included.

  `k0` are the caches when the round of planning started, `k` the caches when
  planning of this change starts.
 */
module PlanTheorems {
  import opened Basics
  import opened PatchModel
  import opened PlanProofs

  lemma PlanProgress(w: World, m: Mode, k0: Caches, k: Caches, c: ChangeId, limit: nat)
    requires TrueDeps(w, k0) && Grown(w, k0, k) && c !in k.committed
    ensures Progress(w, m, k0, c, [], PlanState([], {}, k), Plan(w, m, k, c, limit), [c], limit)
  {
    VisitProgress(w, m, k0, c, [], c, PlanState([], {}, k), limit, limit);
  }

  lemma {:induction false} WalkStaysPlanned(w: World, m: Mode, k0: Caches, plan: seq<ChangeId>, p: seq<ChangeId>)
    requires p != [] && p[0] in plan && Walk(w, m, k0, p)
    requires forall x :: x in plan ==> Explored(w, m, k0, plan, x)
    ensures p[|p| - 1] in plan
  {
    if |p| > 1 {
      assert Edge(w, m, k0, p[0], p[1]);
      WalkSuffix(w, m, k0, p, 1);
      WalkStaysPlanned(w, m, k0, plan, p[1..]);
    }
  }

  /**
    A plan without error holds exactly the changes reachable from the
    requested one, each once; none of them is committed; each of its changes
    that lies on no cycle comes after everything it needs.
   */
  lemma PlanIsReachableSet(w: World, m: Mode, k0: Caches, k: Caches, c: ChangeId, limit: nat)
    requires TrueDeps(w, k0) && Grown(w, k0, k) && c !in k.committed
    requires Plan(w, m, k, c, limit).error.None?
    ensures var plan := Plan(w, m, k, c, limit).state.plan;
      && NoDup(plan)
      && (forall x :: x in plan <==> Reachable(w, m, k0, c, x))
      && (forall x :: x in plan ==> x !in k.committed && Needs(w, m, k0, x).Ok? && Explored(w, m, k0, plan, x))
      && (forall x, d :: x in plan && Edge(w, m, k0, x, d) && !OnCycle(w, m, k0, x) ==> Precedes(plan, d, x))
  {
    PlanProgress(w, m, k0, k, c, limit);
    var s := Plan(w, m, k, c, limit).state;
    var plan := s.plan;
    assert c in [c];
    forall x | Reachable(w, m, k0, c, x) ensures x in plan {
      var p :| |p| > 0 && p[0] == c && p[|p| - 1] == x && Walk(w, m, k0, p);
      WalkStaysPlanned(w, m, k0, plan, p);
    }
    forall x | x in plan ensures x !in k.committed {
      ReachedUncommitted(w, m, k0, k, c, x);
    }
    forall x, d | x in plan && Edge(w, m, k0, x, d) && !OnCycle(w, m, k0, x) ensures Precedes(plan, d, x) {
      var j :| 0 <= j < |plan| && plan[j] == x;
      assert NeedsBefore(w, m, k0, plan, j, plan[j]);
      assert d in plan[..j];
      var i :| 0 <= i < j && plan[i] == d;
    }
  }

  /** Whatever is reached from an uncommitted change is uncommitted. */
  lemma ReachedUncommitted(w: World, m: Mode, k0: Caches, k: Caches, c: ChangeId, x: ChangeId)
    requires TrueDeps(w, k0) && Grown(w, k0, k) && c !in k.committed && Reachable(w, m, k0, c, x)
    ensures x !in k.committed
    ensures x != c ==> !w.merged(x) && (m.limitTo.Some? ==> x in m.limitTo.value)
  {
    var p :| |p| > 0 && p[0] == c && p[|p| - 1] == x && Walk(w, m, k0, p);
    if |p| > 1 {
      assert Edge(w, m, k0, p[|p| - 2], p[|p| - 2 + 1]);
      NeedsFacts(w, m, k0, k, p[|p| - 2]);
    }
  }

  /** In a round of `Apply` the requested changes are in the lookup cache, so no planned change becomes committed. */
  lemma PlannedStayUncommitted(w: World, m: Mode, k0: Caches, k: Caches, k': Caches, c: ChangeId, x: ChangeId)
    requires TrueDeps(w, k0) && Grown(w, k0, k) && Grown(w, k, k') && c !in k.committed && c in k0.lookup
    requires Reachable(w, m, k0, c, x)
    ensures x !in k'.committed
  {
    ReachedUncommitted(w, m, k0, k, c, x);
  }

  /**
    A failed plan is blamed on the requested change through a chain of direct
    dependencies that ends in one of two errors: that of a reachable change
    whose own dependencies cannot be looked up, or that of a change at the end
    of a simple dependency walk of `limit` changes.
   */
  lemma PlanBlame(w: World, m: Mode, k0: Caches, k: Caches, c: ChangeId, limit: nat)
    requires TrueDeps(w, k0) && Grown(w, k0, k)
    requires Plan(w, m, k, c, limit).error.Some?
    ensures Blamed(w, m, k0, c, c, Plan(w, m, k, c, limit).error.value, limit)
  {
    PlanProgress(w, m, k0, k, c, limit);
  }

  lemma LongWalkNeedsRoom(w: World, m: Mode, k0: Caches, root: ChangeId, limit: nat, x: ChangeId, all: set<ChangeId>)
    requires LongWalk(w, m, k0, root, limit, x)
    requires forall y :: Reachable(w, m, k0, root, y) ==> y in all
    ensures limit <= |all|
  {
    var p :| |p| == limit && NoDup(p) && LeadsTo(w, m, k0, root, p, x);
    NoDupCardinality(p);
    forall y | y in Elements(p) ensures y in all {
      assert Reachable(w, m, k0, root, y);
    }
    SubsetCardinality(Elements(p), all);
  }

  /**
    The depth bound: when fewer than `limit` changes are reachable, planning
    fails exactly when the dependencies of some reachable change cannot be
    looked up, and never because of the recursion limit.
   */
  lemma DepthBound(w: World, m: Mode, k0: Caches, k: Caches, c: ChangeId, limit: nat, all: set<ChangeId>)
    requires TrueDeps(w, k0) && Grown(w, k0, k) && c !in k.committed
    requires forall x :: Reachable(w, m, k0, c, x) ==> x in all
    requires |all| < limit
    ensures var v := Plan(w, m, k, c, limit);
      && (v.error.Some? ==> RootCause(v.error.value) != RecursionLimit)
      && (v.error.Some? <==> exists x :: Reachable(w, m, k0, c, x) && Needs(w, m, k0, x).Err?)
  {
    var v := Plan(w, m, k, c, limit);
    if v.error.Some? {
      PlanBlame(w, m, k0, k, c, limit);
      var origin :| Stems(v.error.value, origin) && Origin(w, m, k0, c, origin, limit);
      StemsFromRoot(v.error.value, origin);
      NeedsFacts(w, m, k0, k, origin.patch);
      if LongWalk(w, m, k0, c, limit, origin.patch) {
        LongWalkNeedsRoom(w, m, k0, c, limit, origin.patch, all);
      }
    } else {
      PlanIsReachableSet(w, m, k0, k, c, limit);
    }
  }

  // --------------------------------------------- the order of a plan

  /** Every member of the plan comes after all it needs. */
  ghost predicate FullyOrdered(w: World, m: Mode, k0: Caches, plan: seq<ChangeId>) {
    forall x, d :: x in plan && Edge(w, m, k0, x, d) ==> Precedes(plan, d, x)
  }

  lemma PrecedesTransitive(plan: seq<ChangeId>, a: ChangeId, b: ChangeId, c: ChangeId)
    requires NoDup(plan) && Precedes(plan, a, b) && Precedes(plan, b, c)
    ensures Precedes(plan, a, c)
  {
    var i, j :| 0 <= i < j < |plan| && plan[i] == a && plan[j] == b;
    var j', k :| 0 <= j' < k < |plan| && plan[j'] == b && plan[k] == c;
    assert j == j';
  }

  /** In a fully ordered plan a walk goes backwards. */
  lemma {:induction false} WalkGoesBack(w: World, m: Mode, k0: Caches, plan: seq<ChangeId>, p: seq<ChangeId>)
    requires NoDup(plan) && FullyOrdered(w, m, k0, plan)
    requires |p| > 1 && p[0] in plan && Walk(w, m, k0, p)
    ensures Precedes(plan, p[|p| - 1], p[0])
    decreases |p|
  {
    assert Edge(w, m, k0, p[0], p[0 + 1]);
    assert Precedes(plan, p[1], p[0]);
    if |p| > 2 {
      WalkSuffix(w, m, k0, p, 1);
      WalkGoesBack(w, m, k0, plan, p[1..]);
      PrecedesTransitive(plan, p[|p| - 1], p[1], p[0]);
    }
  }

  /** Exactly the plans without a member on a cycle are fully ordered. */
  lemma PlanIsOrderedExactlyWhen(w: World, m: Mode, k0: Caches, k: Caches, c: ChangeId, limit: nat)
    requires TrueDeps(w, k0) && Grown(w, k0, k) && c !in k.committed
    requires Plan(w, m, k, c, limit).error.None?
    ensures var plan := Plan(w, m, k, c, limit).state.plan;
            FullyOrdered(w, m, k0, plan) <==> forall x :: x in plan ==> !OnCycle(w, m, k0, x)
  {
    PlanIsReachableSet(w, m, k0, k, c, limit);
    var plan := Plan(w, m, k, c, limit).state.plan;
    if FullyOrdered(w, m, k0, plan) {
      forall x, p | x in plan && |p| > 1 && p[0] == x && p[|p| - 1] == x ensures !Walk(w, m, k0, p) {
        if Walk(w, m, k0, p) {
          WalkGoesBack(w, m, k0, plan, p);
        }
      }
    }
  }

  // --------------------------------------------- the two bounds are sharp

  function Next(n: nat, i: ChangeId): ChangeId {
    if i + 1 == n then 0 else i + 1
  }

  /** Changes `0` to `n - 1` on one dependency cycle. */
  function Ring(n: nat): World
    requires n > 0
  {
    World(c => Some([Next(n, c)]), c => true, c => Found, c => false, c => true, c => None, (c, h) => Applied)
  }

  lemma RingLookup(n: nat, m: Mode, k: Caches, c: ChangeId)
    requires n > 0 && m.limitTo.None? && k.committed == {}
    ensures var (r, k1) := Lookup(Ring(n), m, k, [Next(n, c)]);
            r == Ok([Next(n, c)]) && k1.committed == {} && k1.deps == k.deps
  {
    var d := Next(n, c);
    assert [d][1..] == [];
    assert LookupAll(Ring(n), m, Examine(Ring(n), m, k, d).1, []).0 == Ok([]);
    assert [d] + [] == [d];
    assert Accepted(Ring(n), [d]) == [d];
  }

  lemma {:induction false} RingDescent(n: nat, m: Mode, i: nat, s: PlanState)
    requires n > 0 && i <= n && m.limitTo.None? && s.k.committed == {} && TrueDeps(Ring(n), s.k)
    requires forall x :: x in s.seen <==> 0 <= x < i
    ensures var v := Visit(Ring(n), m, if i == n then 0 else i, s, n - i);
            v.error.Some? && RootCause(v.error.value) == RecursionLimit
    decreases n - i
  {
    if i < n {
      var w := Ring(n);
      var (deps, k1) := FetchDeps(w, s.k, i);
      var need := Next(n, i);
      assert deps == Some([need]);
      RingLookup(n, m, k1, i);
      var k2 := Lookup(w, m, k1, [need]).1;
      var s1 := s.(k := k2, seen := s.seen + {i});
      RingDescent(n, m, i + 1, s1);
      var v := VisitAll(w, m, [need], s1, n - i - 1);
      assert v == Visit(w, m, need, s1, n - i - 1);
    }
  }

  /** A dependency cycle of exactly the permitted depth is already rejected. */
  lemma CycleOfLimitIsRejected(m: Mode)
    requires m.limitTo.None?
    ensures MAX_PLAN_RECURSION == 500
    ensures var v := Plan(Ring(500), m, Caches({}, {}, map[]), 0, MAX_PLAN_RECURSION);
            v.error.Some? && RootCause(v.error.value) == RecursionLimit
  {
    RingDescent(MAX_PLAN_RECURSION, m, 0, PlanState([], {}, Caches({}, {}, map[])));
  }

  const U: ChangeId := 0
  const X: ChangeId := 1
  const V: ChangeId := 2

  /** `U` needs `X` and `V`, and `X` needs `U`. */
  const Triangle: World := World(
    c => Some(if c == U then [X, V] else if c == X then [U] else []),
    c => true, c => Found, c => false, c => true, c => None, (c, h) => Applied)

  lemma TriangleLookup(k: Caches, deps: seq<ChangeId>)
    requires k.committed == {} && {U, X, V} <= k.lookup && |deps| <= 2 && forall d :: d in deps ==> d in {U, X, V}
    ensures Lookup(Triangle, Mode(None, false), k, deps) == (Ok(deps), k)
  {
    var m := Mode(None, false);
    assert LookupAll(Triangle, m, k, []) == (Ok([]), k) && Accepted(Triangle, []) == [];
    if |deps| > 0 {
      var last := deps[|deps| - 1..];
      assert last[1..] == [] && last == [last[0]] + [] && last[0] in deps;
      assert LookupAll(Triangle, m, k, last) == (Ok(last), k);
      assert Accepted(Triangle, last) == last;
      if |deps| == 2 {
        assert deps[1..] == last && deps == [deps[0]] + last && deps[0] in deps;
        assert Accepted(Triangle, deps) == deps;
      } else {
        assert deps == last;
      }
    }
  }

  const Quiet := Mode(None, false)
  const K0 := Caches({}, {U, X, V}, map[])
  const KU := Caches({}, {U, X, V}, map[U := [X, V]])
  const KX := Caches({}, {U, X, V}, map[U := [X, V], X := [U]])
  const KV := Caches({}, {U, X, V}, map[U := [X, V], X := [U], V := []])

  /** Walking `X` meets `U` again, which is appended at once. */
  lemma VisitX(depth: nat)
    requires depth > 1
    ensures Visit(Triangle, Quiet, X, PlanState([], {U}, KU), depth)
         == Visited(PlanState([U, X], {U, X}, KX), None)
  {
    var w, m := Triangle, Quiet;
    TriangleLookup(KX, [U]);
    var s := PlanState([], {U, X}, KX);
    assert {U} + {X} == {U, X};
    assert KU.deps[X := [U]] == KX.deps;
    assert [U][1..] == [];
    assert Visit(w, m, U, s, depth - 1) == Visited(s.(plan := [U]), None);
    assert VisitAll(w, m, [U], s, depth - 1) == VisitAll(w, m, [], s.(plan := [U]), depth - 1);
  }

  lemma VisitV(depth: nat)
    requires depth > 1
    ensures Visit(Triangle, Quiet, V, PlanState([U, X], {U, X}, KX), depth)
         == Visited(PlanState([U, X, V], {U, X, V}, KV), None)
  {
    TriangleLookup(KV, []);
    assert {U, X} + {V} == {U, X, V};
    assert KX.deps[V := []] == KV.deps;
    var s := PlanState([U, X], {U, X, V}, KV);
    assert VisitAll(Triangle, Quiet, [], s, depth - 1) == Visited(s, None);
  }

  lemma VLiesOnNoCycle()
    ensures Edge(Triangle, Quiet, K0, U, V) && !OnCycle(Triangle, Quiet, K0, V)
  {
    TriangleLookup(K0, [X, V]);
    TriangleLookup(K0, []);
    forall p | |p| > 1 && p[0] == V ensures !Walk(Triangle, Quiet, K0, p) {
      assert !Edge(Triangle, Quiet, K0, p[0], p[0 + 1]);
    }
  }

  /**
    The ordering promise cannot be extended to changes on a cycle: here `V`
    lies on no cycle, is needed by `U`, and is planned after it.
   */
  lemma CycleMemberMayPrecedeItsNeed(n: nat)
    requires n > 2
    ensures Plan(Triangle, Quiet, K0, U, n).state.plan == [U, X, V]
    ensures Edge(Triangle, Quiet, K0, U, V) && !OnCycle(Triangle, Quiet, K0, V)
  {
    VLiesOnNoCycle();
    var s := PlanState([], {}, K0);
    var t := PlanState([U, X, V], {U, X, V}, KV);
    FetchU();
    TriangleLookup(KU, [X, V]);
    VisitU(n);
    assert s.(k := KU, seen := s.seen + {U}) == PlanState([], {U}, KU);
    assert Visit(Triangle, Quiet, U, s, n) == Visited(AppendOnce(t, U), None);
    assert U in t.plan;
  }

  lemma FetchU()
    ensures FetchDeps(Triangle, K0, U) == (Some([X, V]), KU)
  {
    assert K0.deps[U := [X, V]] == KU.deps;
  }

  /** The walk below `U`. */
  lemma VisitU(n: nat)
    requires n > 2
    ensures VisitAll(Triangle, Quiet, [X, V], PlanState([], {U}, KU), n - 1)
         == Visited(PlanState([U, X, V], {U, X, V}, KV), None)
  {
    var w, m := Triangle, Quiet;
    VisitX(n - 1);
    VisitV(n - 1);
    var s1, s2, s3 := PlanState([], {U}, KU), PlanState([U, X], {U, X}, KX), PlanState([U, X, V], {U, X, V}, KV);
    assert [X, V][1..] == [V] && [V][1..] == [];
    assert VisitAll(w, m, [V], s2, n - 1) == VisitAll(w, m, [], s3, n - 1) == Visited(s3, None);
    assert VisitAll(w, m, [X, V], s1, n - 1) == VisitAll(w, m, [V], s2, n - 1);
  }
}
