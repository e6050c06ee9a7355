/** `PatchSeries.Apply` as a whole: fetching, planning, ordering, running and reporting. */
module ApplySpec {
  import opened Basics
  import opened PatchModel
  import opened PlanProofs
  import opened PlanTheorems
  import opened Transactions

  // ------------------------------------------------------------- fetching

  /** The changes an available gerrit host serves and whose project is checked out. */
  function Kept(w: World, cs: seq<ChangeId>): (r: seq<ChangeId>)
    ensures forall c :: c in r ==> c in cs && w.helper(c) && w.repos(c).Some?
    ensures forall c :: c in cs && w.helper(c) && w.repos(c).Some? ==> c in r
  {
    if cs == [] then []
    else
      var c := cs[|cs| - 1];
      assert c in cs;
      Kept(w, cs[..|cs| - 1]) + (if w.helper(c) && w.repos(c).Some? then [c] else [])
  }

  function NotCheckedOut(w: World, cs: seq<ChangeId>): (r: seq<PatchError>)
    ensures forall e :: e in r <==>
      e == PatchError(e.patch, false, NotInManifest) && e.patch in cs && w.helper(e.patch) && w.repos(e.patch).None?
  {
    if cs == [] then []
    else
      var c := cs[|cs| - 1];
      assert c in cs;
      NotCheckedOut(w, cs[..|cs| - 1])
        + (if w.helper(c) && w.repos(c).None? then [PatchError(c, false, NotInManifest)] else [])
  }

  // ------------------------------------------------------------- planning

  datatype Proposal = Proposal(change: ChangeId, plan: seq<ChangeId>, error: Option<PatchError>)

  function Propose(w: World, m: Mode, k: Caches, c: ChangeId, limit: nat): (Proposal, Caches) {
    var v := Plan(w, m, k, c, limit);
    (Proposal(c, if v.error.Some? then [] else v.state.plan, v.error), v.state.k)
  }

  function PlanEach(w: World, m: Mode, k: Caches, cs: seq<ChangeId>, limit: nat): (seq<Proposal>, Caches)
    decreases |cs|
  {
    if cs == [] then ([], k)
    else
      var (ps, k1) := PlanEach(w, m, k, cs[..|cs| - 1], limit);
      var (p, k2) := Propose(w, m, k1, cs[|cs| - 1], limit);
      (ps + [p], k2)
  }

  function Resolved(ps: seq<Proposal>): (r: seq<Planned>)
    ensures forall t :: t in r ==> Proposal(t.change, t.plan, None) in ps
    ensures forall p :: p in ps && p.error.None? ==> Planned(p.change, p.plan) in r
  {
    if ps == [] then []
    else
      var p := ps[|ps| - 1];
      Resolved(ps[..|ps| - 1]) + (if p.error.None? then [Planned(p.change, p.plan)] else [])
  }

  function PlanErrors(ps: seq<Proposal>): (r: seq<PatchError>)
    ensures forall e :: e in r ==> exists p :: p in ps && p.error == Some(e)
    ensures forall p :: p in ps && p.error.Some? ==> p.error.value in r
  {
    if ps == [] then []
    else
      var p := ps[|ps| - 1];
      PlanErrors(ps[..|ps| - 1]) + (if p.error.Some? then [p.error.value] else [])
  }

  // ------------------------------------------------------------- ordering

  /** The last position of `c`, as a dictionary built from the enumeration keeps it. */
  function Position(cs: seq<ChangeId>, c: ChangeId): (n: nat)
    ensures c in cs ==> n < |cs| && cs[n] == c && c !in cs[n + 1..]
  {
    if cs == [] then 0
    else if cs[|cs| - 1] == c then |cs| - 1
    else Position(cs[..|cs| - 1], c)
  }

  /** Longer plans go first, and among equally long ones the order of the request counts. */
  predicate Before(cs: seq<ChangeId>, p: Planned, q: Planned) {
    |p.plan| > |q.plan| || (|p.plan| == |q.plan| && Position(cs, p.change) <= Position(cs, q.change))
  }

  ghost predicate InOrder(cs: seq<ChangeId>, todo: seq<Planned>) {
    forall i, j :: 0 <= i < j < |todo| ==> Before(cs, todo[i], todo[j])
  }

  function Insert(cs: seq<ChangeId>, p: Planned, todo: seq<Planned>): (r: seq<Planned>)
    ensures multiset(r) == multiset(todo) + multiset{p}
  {
    if todo == [] || Before(cs, p, todo[0]) then [p] + todo
    else
      assert todo == [todo[0]] + todo[1..];
      [todo[0]] + Insert(cs, p, todo[1..])
  }

  function SortPlans(cs: seq<ChangeId>, todo: seq<Planned>): (r: seq<Planned>)
    ensures multiset(r) == multiset(todo)
  {
    if todo == [] then []
    else
      assert todo == [todo[0]] + todo[1..];
      Insert(cs, todo[0], SortPlans(cs, todo[1..]))
  }

  lemma {:induction false} InsertInOrder(cs: seq<ChangeId>, p: Planned, todo: seq<Planned>)
    requires InOrder(cs, todo)
    ensures InOrder(cs, Insert(cs, p, todo))
  {
    if todo != [] && !Before(cs, p, todo[0]) {
      InsertInOrder(cs, p, todo[1..]);
      var rest := Insert(cs, p, todo[1..]);
      forall j | 0 <= j < |rest| ensures Before(cs, todo[0], rest[j]) {
        assert rest[j] in multiset(rest);
        if rest[j] != p {
          assert rest[j] in multiset(todo[1..]);
          var i :| 0 <= i < |todo[1..]| && todo[1..][i] == rest[j];
          assert Before(cs, todo[0], todo[i + 1]);
        }
      }
    }
  }

  /** Transactions are attempted longest plan first. */
  lemma {:induction false} SortPlansInOrder(cs: seq<ChangeId>, todo: seq<Planned>)
    ensures InOrder(cs, SortPlans(cs, todo))
    ensures forall p :: p in SortPlans(cs, todo) <==> p in todo
  {
    if todo != [] {
      SortPlansInOrder(cs, todo[1..]);
      InsertInOrder(cs, todo[0], SortPlans(cs, todo[1..]));
    }
    assert forall p :: p in SortPlans(cs, todo) <==> p in multiset(SortPlans(cs, todo));
    assert forall p :: p in todo <==> p in multiset(todo);
  }

  // ------------------------------------------------------------- reporting

  function Unapplied(failed: seq<PatchError>, applied: seq<ChangeId>): (r: seq<PatchError>)
    ensures forall e :: e in r <==> e in failed && e.patch !in applied
  {
    if failed == [] then []
    else
      var e := failed[0];
      (if e.patch in applied then [] else [e]) + Unapplied(failed[1..], applied)
  }

  function WithInflight(failed: seq<PatchError>, inflight: bool): (r: seq<PatchError>)
    ensures forall e :: e in r <==> e in failed && e.inflight == inflight
  {
    if failed == [] then []
    else
      var e := failed[0];
      (if e.inflight == inflight then [e] else []) + WithInflight(failed[1..], inflight)
  }

  // ------------------------------------------------------------- the whole call

  datatype Series = Series(k: Caches, repos: Histories, failedTot: map<ChangeId, PatchError>, submitting: bool)

  datatype Request = Request(
    changes: seq<ChangeId>,
    frozen: bool,
    honorOrdering: bool,
    filter: Option<seq<ChangeId> -> seq<ChangeId>>)

  datatype Outcome = Outcome(
    series: Series,
    applied: seq<ChangeId>,
    failedTot: seq<PatchError>,
    failedInflight: seq<PatchError>)

  /** The changes that reach planning. */
  function Considered(w: World, q: Request): seq<ChangeId> {
    var kept := Kept(w, q.changes);
    if q.filter.Some? then q.filter.value(kept) else kept
  }

  function PlanningMode(w: World, s: Series, q: Request): Mode {
    Mode(if q.frozen then Some(Elements(Considered(w, q))) else None, s.submitting)
  }

  /** The caches planning starts from. */
  function PlanningCaches(w: World, s: Series, q: Request): Caches {
    s.k.(lookup := s.k.lookup + Elements(Considered(w, q)))
  }

  function Proposals(w: World, s: Series, q: Request): (seq<Proposal>, Caches) {
    PlanEach(w, PlanningMode(w, s, q), PlanningCaches(w, s, q), Considered(w, q), MAX_PLAN_RECURSION)
  }

  /** The transactions to attempt, in the order they are attempted. */
  function Todo(w: World, s: Series, q: Request): seq<Planned> {
    var todo := Resolved(Proposals(w, s, q).0);
    if q.honorOrdering then todo else SortPlans(Considered(w, q), todo)
  }

  function EarlyErrors(w: World, s: Series, q: Request): seq<PatchError> {
    NotCheckedOut(w, q.changes) + PlanErrors(Proposals(w, s, q).0)
  }

  function RunStart(w: World, s: Series, q: Request): RunState {
    RunState(s.repos, Proposals(w, s, q).1.committed, s.failedTot)
  }

  function Apply(w: World, s: Series, q: Request): Outcome {
    var k := Proposals(w, s, q).1;
    if Resolved(Proposals(w, s, q).0) == [] then
      Outcome(s.(k := k), [], EarlyErrors(w, s, q), [])
    else
      var r := RunAll(w, RunStart(w, s, q), Todo(w, s, q));
      var applied := Uniq(r.applied);
      var failed := Unapplied(EarlyErrors(w, s, q) + r.failed, applied);
      Outcome(
        Series(k.(committed := r.state.committed), r.state.repos, r.state.failedTot, true),
        applied,
        WithInflight(failed, false),
        WithInflight(failed, true))
  }
}
