/** Which transactions a call of `Apply` attempts, in which order, and how far it reaches. */
module ApplyMeaning {
  import opened Basics
  import opened PatchModel
  import opened PlanProofs
  import opened PlanTheorems
  import opened Transactions
  import opened AttemptMeaning
  import opened ApplySpec
  import opened ApplyTheorems

  ghost predicate Increasing(at: seq<nat>) {
    forall i, j :: 0 <= i < j < |at| ==> at[i] < at[j]
  }

  /** `at` lists the proposals that could be planned, in order. */
  ghost predicate Planables(ps: seq<Proposal>, at: seq<nat>) {
    && Increasing(at)
    && forall i: nat :: i in at <==> i < |ps| && ps[i].error.None?
  }

  function PlanOf(p: Proposal): Planned {
    Planned(p.change, p.plan)
  }

  function PlansAt(ps: seq<Proposal>, at: seq<nat>): seq<Planned>
    requires forall i :: i in at ==> i < |ps|
  {
    seq(|at|, k requires 0 <= k < |at| => var i := at[k]; assert i in at; PlanOf(ps[i]))
  }

  lemma PlanablesSnoc(init: seq<Proposal>, p: Proposal, before: seq<nat>)
    requires Planables(init, before)
    ensures Planables(init + [p], if p.error.None? then before + [|init|] else before)
  {
    var ps, at := init + [p], if p.error.None? then before + [|init|] else before;
    forall i: nat ensures i in at <==> i < |ps| && ps[i].error.None? {
      assert i in at <==> i in before || (p.error.None? && i == |init|);
      assert i < |init| ==> ps[i] == init[i];
    }
    forall i, j | 0 <= i < j < |at| ensures at[i] < at[j] {
      if j == |before| {
        var x := before[i];
        assert x in before;
      }
    }
  }

  lemma PlansSnoc(init: seq<Proposal>, p: Proposal, before: seq<nat>)
    requires forall i :: i in before ==> i < |init|
    ensures forall i :: i in before + [|init|] ==> i < |init + [p]|
    ensures PlansAt(init + [p], before) == PlansAt(init, before)
    ensures PlansAt(init + [p], before + [|init|]) == PlansAt(init, before) + [PlanOf(p)]
  {
    forall k | 0 <= k < |before| ensures before[k] < |init| && (init + [p])[before[k]] == init[before[k]] {
      var i := before[k];
      assert i in before && i < |init|;
    }
    assert (init + [p])[|init|] == p;
  }

  ghost predicate Picks(ps: seq<Proposal>, at: seq<nat>, plans: seq<Planned>) {
    Planables(ps, at) && plans == PlansAt(ps, at)
  }

  lemma PicksSnoc(init: seq<Proposal>, p: Proposal, before: seq<nat>, plans: seq<Planned>) returns (at: seq<nat>)
    requires Picks(init, before, plans)
    ensures Picks(init + [p], at, plans + if p.error.None? then [PlanOf(p)] else [])
  {
    PlanablesSnoc(init, p, before);
    PlansSnoc(init, p, before);
    at := if p.error.None? then before + [|init|] else before;
  }

  lemma ResolvedSnoc(init: seq<Proposal>, p: Proposal)
    ensures Resolved(init + [p]) == Resolved(init) + if p.error.None? then [PlanOf(p)] else []
  {
    assert (init + [p])[..|init + [p]| - 1] == init;
  }

  lemma {:induction false} ResolvedMeans(ps: seq<Proposal>) returns (at: seq<nat>)
    ensures Picks(ps, at, Resolved(ps))
  {
    if ps == [] {
      at := [];
    } else {
      var init, p := ps[..|ps| - 1], ps[|ps| - 1];
      var before := ResolvedMeans(init);
      ResolvedSnoc(init, p);
      at := PicksSnoc(init, p, before, Resolved(init));
      assert ps == init + [p];
    }
  }

  /**
    The transactions attempted are the plans of the considered changes that
    could be planned: in the order of the request if that is to be honored,
    else longest plan first and equally long ones in the order of the request.
   */
  lemma TodoMeans(w: World, s: Series, q: Request) returns (at: seq<nat>)
    requires TrueDeps(w, s.k)
    ensures var (ps, cs, todo) := (Proposals(w, s, q).0, Considered(w, q), Todo(w, s, q));
      && |ps| == |cs| && (forall i :: 0 <= i < |cs| ==> ps[i].change == cs[i])
      && Planables(ps, at)
      && (q.honorOrdering ==> todo == PlansAt(ps, at))
      && (!q.honorOrdering ==> multiset(todo) == multiset(PlansAt(ps, at)) && LongestFirst(cs, todo))
  {
    PlanEachGood(w, PlanningMode(w, s, q), PlanningCaches(w, s, q), Considered(w, q), MAX_PLAN_RECURSION);
    at := ResolvedMeans(Proposals(w, s, q).0);
    SortedIsLongestFirst(Considered(w, q), Resolved(Proposals(w, s, q).0));
  }

  ghost predicate LongestFirst(cs: seq<ChangeId>, todo: seq<Planned>) {
    forall i, j :: 0 <= i < j < |todo| ==>
      || |todo[i].plan| > |todo[j].plan|
      || (|todo[i].plan| == |todo[j].plan| && Position(cs, todo[i].change) <= Position(cs, todo[j].change))
  }

  lemma SortedIsLongestFirst(cs: seq<ChangeId>, todo: seq<Planned>)
    ensures LongestFirst(cs, SortPlans(cs, todo)) && multiset(SortPlans(cs, todo)) == multiset(todo)
  {
    SortPlansInOrder(cs, todo);
    var sorted := SortPlans(cs, todo);
    forall i, j | 0 <= i < j < |sorted|
      ensures |sorted[i].plan| > |sorted[j].plan|
        || (|sorted[i].plan| == |sorted[j].plan| && Position(cs, sorted[i].change) <= Position(cs, sorted[j].change))
    {
      assert Before(cs, sorted[i], sorted[j]);
    }
  }

  lemma PlanWithinRequest(w: World, m: Mode, k0: Caches, committed: set<ChangeId>, p: Planned, cs: seq<ChangeId>)
    requires TrueDeps(w, k0) && k0.committed <= committed && WellPlanned(w, m, k0, committed, p)
    requires m.limitTo == Some(Elements(cs)) && p.change in cs
    ensures forall c :: c in p.plan ==> c in cs
  {
    if p.plan != [] {
      forall c | c in p.plan ensures c in cs {
        ReachedUncommitted(w, m, k0, k0, p.change, c);
      }
    }
  }

  /** In frozen mode nothing is applied that was not requested. */
  lemma FrozenAppliesOnlyRequested(w: World, s: Series, q: Request, c: ChangeId)
    requires TrueDeps(w, s.k) && q.frozen && c in Apply(w, s, q).applied
    ensures c in Considered(w, q)
  {
    var m, k0, cs := PlanningMode(w, s, q), PlanningCaches(w, s, q), Considered(w, q);
    TodoWellPlanned(w, s, q);
    ApplyIsRun(w, s, q);
    var todo := Todo(w, s, q);
    var states := RunIsInOrder(w, RunStart(w, s, q), todo);
    var i :| LandedWith(w, todo, states, c, i);
    PlannedForRequest(w, s, q, todo[i]);
    PlanWithinRequest(w, m, k0, Proposals(w, s, q).1.committed, todo[i], cs);
  }

  lemma PlannedForRequest(w: World, s: Series, q: Request, p: Planned)
    requires TrueDeps(w, s.k) && p in Todo(w, s, q)
    ensures p.change in Considered(w, q)
  {
    var ps := Proposals(w, s, q).0;
    PlansOf(ps, Considered(w, q), p);
    PlanEachGood(w, PlanningMode(w, s, q), PlanningCaches(w, s, q), Considered(w, q), MAX_PLAN_RECURSION);
    var i :| 0 <= i < |ps| && ps[i] == Proposal(p.change, p.plan, None);
  }

  /** From then on refusals count as rejections: exactly if some change could be planned. */
  lemma SubmitsFromThenOn(w: World, s: Series, q: Request)
    ensures Apply(w, s, q).series.submitting <==>
              s.submitting || exists p :: p in Proposals(w, s, q).0 && p.error.None?
  {
    var ps := Proposals(w, s, q).0;
    if p :| p in ps && p.error.None? {
      assert Planned(p.change, p.plan) in Resolved(ps);
    }
    if Resolved(ps) != [] {
      var t := Resolved(ps)[0];
      assert t in Resolved(ps);
      assert Proposal(t.change, t.plan, None) in ps;
    }
  }
}
