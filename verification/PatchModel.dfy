/**
  The planning half of `PatchSeries`: which changes a change still needs, and
  the depth-bounded depth-first walk that turns a change into an ordered plan.

  A change is identified by its id, and a query for a change is that id.
  Everything the outside world decides is in `World`.
 */
module PatchModel {
  import opened Basics

  type ChangeId = int
  type Repo = int
  type Histories = map<Repo, seq<ChangeId>>

  const MAX_PLAN_RECURSION: nat := 500

  datatype Cause =
    | RecursionLimit
    | Rejected
    | NotEligible
    | NotInManifest
    | GerritFailure
    | Conflict
    | DependsOn(error: PatchError)

  /** A patch exception: the change it is about, and whether it failed only in flight. */
  datatype PatchError = PatchError(patch: ChangeId, inflight: bool, cause: Cause)

  /** What may be raised below the wrapping decorator. */
  datatype Raised = Gerrit | Patch(error: PatchError)

  datatype QueryAnswer = Found | Missing | QueryFailed

  /** Outcome of cherry-picking a change; a failed one may leave debris in its own repos. */
  datatype Verdict = Applied | Failed(inflight: bool, debris: Histories)

  datatype World = World(
    gerritDeps: ChangeId -> Option<seq<ChangeId>>,
    helper: ChangeId -> bool,
    query: ChangeId -> QueryAnswer,
    merged: ChangeId -> bool,
    accept: ChangeId -> bool,
    repos: ChangeId -> Option<set<Repo>>,
    attempt: (ChangeId, Histories) -> Verdict)

  /** The caller's settings for one planning round. */
  datatype Mode = Mode(limitTo: Option<set<ChangeId>>, submitting: bool)

  datatype Caches = Caches(
    committed: set<ChangeId>,
    lookup: set<ChangeId>,
    deps: map<ChangeId, seq<ChangeId>>)

  /** The exception wrapping of the decorator: blame always ends up on `parent`. */
  function Wrap(parent: ChangeId, r: Raised): (e: PatchError)
    ensures e.patch == parent
    ensures r.Gerrit? ==> !e.inflight && e.cause == GerritFailure
    ensures r.Patch? ==> e.inflight == r.error.inflight && (e == r.error || e.cause == DependsOn(r.error))
    ensures r.Patch? ==> (e == r.error <==> r.error.patch == parent)
  {
    match r
    case Gerrit => PatchError(parent, false, GerritFailure)
    case Patch(e) =>
      if e.patch == parent then e
      else PatchError(parent, e.inflight, DependsOn(e))
  }

  // ---------------------------------------------------------------- lookup

  datatype Answer = Skip | Need | Fail(raised: Raised)

  /** What a resolved, uncommitted dependency means for the plan. */
  function Classify(w: World, m: Mode, d: ChangeId): Answer {
    if w.merged(d) then Skip
    else if m.limitTo.Some? && d !in m.limitTo.value then
      Fail(Patch(PatchError(d, false, if m.submitting then Rejected else NotEligible)))
    else Need
  }

  function Remember(w: World, k: Caches, d: ChangeId): Caches {
    k.(lookup := k.lookup + {d},
       committed := if w.merged(d) then k.committed + {d} else k.committed)
  }

  function Examine(w: World, m: Mode, k: Caches, d: ChangeId): (Answer, Caches) {
    if d in k.committed || !w.helper(d) then (Skip, k)
    else if d in k.lookup then (Classify(w, m, d), k)
    else match w.query(d)
      case QueryFailed => (Fail(Gerrit), k)
      case Missing => (Skip, k)
      case Found => (Classify(w, m, d), Remember(w, k, d))
  }

  function LookupAll(w: World, m: Mode, k: Caches, deps: seq<ChangeId>)
    : (Result<seq<ChangeId>, Raised>, Caches)
    decreases |deps|
  {
    if deps == [] then (Ok([]), k)
    else
      var (a, k1) := Examine(w, m, k, deps[0]);
      match a
      case Fail(r) => (Err(r), k1)
      case Skip => LookupAll(w, m, k1, deps[1..])
      case Need =>
        var (rest, k2) := LookupAll(w, m, k1, deps[1..]);
        (if rest.Ok? then Ok([deps[0]] + rest.value) else rest, k2)
  }

  function Accepted(w: World, cs: seq<ChangeId>): (r: seq<ChangeId>)
    ensures forall c :: c in r <==> c in cs && w.accept(c)
  {
    if cs == [] then []
    else (if w.accept(cs[0]) then [cs[0]] else []) + Accepted(w, cs[1..])
  }

  function Lookup(w: World, m: Mode, k: Caches, deps: seq<ChangeId>)
    : (Result<seq<ChangeId>, Raised>, Caches)
  {
    var (r, k1) := LookupAll(w, m, k, deps);
    (if r.Ok? then Ok(Accepted(w, r.value)) else r, k1)
  }

  /** The dependencies of `c`, through the dependency cache. */
  function FetchDeps(w: World, k: Caches, c: ChangeId): (Option<seq<ChangeId>>, Caches) {
    if c in k.deps then (Some(k.deps[c]), k)
    else
      var r := w.gerritDeps(c);
      (r, if r.Some? then k.(deps := k.deps[c := r.value]) else k)
  }

  // -------------------------------------------------------------- planning

  datatype PlanState = PlanState(plan: seq<ChangeId>, seen: set<ChangeId>, k: Caches)

  datatype Visited = Visited(state: PlanState, error: Option<PatchError>)

  function AppendOnce(s: PlanState, c: ChangeId): PlanState {
    if c in s.plan then s else s.(plan := s.plan + [c])
  }

  function Visit(w: World, m: Mode, c: ChangeId, s: PlanState, depth: nat): Visited
    decreases depth, 0
  {
    if c in s.k.committed then Visited(s, None)
    else if depth == 0 then Visited(s, Some(PatchError(c, false, RecursionLimit)))
    else
      var (deps, k1) := FetchDeps(w, s.k, c);
      if deps.None? then Visited(s, Some(Wrap(c, Gerrit)))
      else if c in s.seen then Visited(AppendOnce(s.(k := k1), c), None)
      else
        var (needs, k2) := Lookup(w, m, k1, deps.value);
        if needs.Err? then Visited(s.(k := k2), Some(Wrap(c, needs.error)))
        else
          var v := VisitAll(w, m, needs.value, s.(k := k2, seen := s.seen + {c}), depth - 1);
          if v.error.Some? then Visited(v.state, Some(Wrap(c, Patch(v.error.value))))
          else Visited(AppendOnce(v.state, c), None)
  }

  function VisitAll(w: World, m: Mode, cs: seq<ChangeId>, s: PlanState, depth: nat): Visited
    decreases depth, 1 + |cs|
  {
    if cs == [] then Visited(s, None)
    else
      var v := Visit(w, m, cs[0], s, depth);
      if v.error.Some? then v else VisitAll(w, m, cs[1..], v.state, depth)
  }

  /** Planning one change from scratch. */
  function Plan(w: World, m: Mode, k: Caches, c: ChangeId, limit: nat): Visited {
    Visit(w, m, c, PlanState([], {}, k), limit)
  }

  // ---------------------------------------------- the graph a plan explores

  /** What `c` still needs, as judged with the caches `k`; independent of later cache growth. */
  function Needs(w: World, m: Mode, k: Caches, c: ChangeId): Result<seq<ChangeId>, PatchError> {
    match w.gerritDeps(c)
    case None => Err(Wrap(c, Gerrit))
    case Some(deps) =>
      var r := Lookup(w, m, k, deps).0;
      if r.Ok? then Ok(r.value) else Err(Wrap(c, r.error))
  }

  ghost predicate Edge(w: World, m: Mode, k: Caches, a: ChangeId, b: ChangeId) {
    Needs(w, m, k, a).Ok? && b in Needs(w, m, k, a).value
  }

  ghost predicate Walk(w: World, m: Mode, k: Caches, p: seq<ChangeId>) {
    forall i :: 0 <= i < |p| - 1 ==> Edge(w, m, k, p[i], p[i + 1])
  }

  /** `b` is `a` or a direct or indirect dependency of `a`. */
  ghost predicate Reachable(w: World, m: Mode, k: Caches, a: ChangeId, b: ChangeId) {
    exists p :: |p| > 0 && p[0] == a && p[|p| - 1] == b && Walk(w, m, k, p)
  }

  ghost predicate OnCycle(w: World, m: Mode, k: Caches, c: ChangeId) {
    exists p :: |p| > 1 && p[0] == c && p[|p| - 1] == c && Walk(w, m, k, p)
  }
}
