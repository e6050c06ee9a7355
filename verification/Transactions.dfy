/**
  The applying half of `PatchSeries`: one transaction, and a run of them.
  The functions here are the specification of the methods of class
  `PatchSeries`; the lemmas say what every run keeps.
 */
module Transactions {
  import opened Basics
  import opened PatchModel
  import opened PlanProofs
  import opened PlanTheorems

  datatype RunState = RunState(
    repos: Histories,
    committed: set<ChangeId>,
    failedTot: map<ChangeId, PatchError>)

  /** A change to land together with its ordered plan. */
  datatype Planned = Planned(change: ChangeId, plan: seq<ChangeId>)

  /** The outcome of a run, before the final clean-up of the two lists. */
  datatype Report = Report(state: RunState, applied: seq<ChangeId>, failed: seq<PatchError>)

  // -------------------------------------------------------- one transaction

  function Extend(h: Histories, rs: set<Repo>, c: ChangeId): Histories {
    map r | r in h :: if r in rs then h[r] + [c] else h[r]
  }

  function Litter(h: Histories, rs: set<Repo>, debris: Histories): Histories {
    map r | r in h :: if r in rs && r in debris then debris[r] else h[r]
  }

  /** Cherry-picking one change; a failure may leave its own repos in any state. */
  function ApplyOne(w: World, h: Histories, c: ChangeId): (Histories, Option<PatchError>) {
    match w.repos(c)
    case None => (h, Some(PatchError(c, false, NotInManifest)))
    case Some(rs) =>
      match w.attempt(c, h)
      case Applied => (Extend(h, rs, c), None)
      case Failed(inflight, debris) => (Litter(h, rs, debris), Some(PatchError(c, inflight, Conflict)))
  }

  function ApplySeq(w: World, s: RunState, cs: seq<ChangeId>): (RunState, Option<PatchError>)
    decreases |cs|
  {
    if cs == [] then (s, None)
    else if cs[0] in s.committed then ApplySeq(w, s, cs[1..])
    else
      var (h, e) := ApplyOne(w, s.repos, cs[0]);
      if e.None? then ApplySeq(w, s.(repos := h), cs[1..])
      else
        (s.(repos := h,
            failedTot := if e.value.inflight then s.failedTot else s.failedTot[cs[0] := e.value]), e)
  }

  function FirstMissing(w: World, cs: seq<ChangeId>): (r: Option<ChangeId>)
    ensures r.None? <==> forall c :: c in cs ==> w.repos(c).Some?
    ensures r.Some? ==> r.value in cs && w.repos(r.value).None?
  {
    if cs == [] then None
    else
      var c := cs[0];
      assert c in cs;
      if w.repos(c).None? then Some(c) else FirstMissing(w, cs[1..])
  }

  function FirstKnownBad(failedTot: map<ChangeId, PatchError>, cs: seq<ChangeId>): (r: Option<PatchError>)
    ensures r.None? <==> forall c :: c in cs ==> c !in failedTot
  {
    if cs == [] then None
    else
      var c := cs[0];
      assert c in cs;
      if c in failedTot then Some(failedTot[c]) else FirstKnownBad(failedTot, cs[1..])
  }

  /** Applying a plan: refused at once if a member is known not to apply. */
  function ApplyChanges(w: World, s: RunState, inducing: ChangeId, cs: seq<ChangeId>): (RunState, Option<PatchError>) {
    var bad := FirstKnownBad(s.failedTot, cs);
    if bad.Some? then (s, Some(Wrap(inducing, Patch(bad.value))))
    else
      var (s1, e) := ApplySeq(w, s, cs);
      (s1, if e.Some? then Some(Wrap(inducing, Patch(e.value))) else None)
  }

  /** A transaction is all or nothing, except that `failedTot` is kept. */
  function Attempt(w: World, s: RunState, p: Planned): (RunState, Option<PatchError>) {
    var missing := FirstMissing(w, p.plan);
    if missing.Some? then (s, Some(PatchError(missing.value, false, NotInManifest)))
    else
      var (s1, e) := ApplyChanges(w, s, p.change, p.plan);
      if e.Some? then (s.(failedTot := s1.failedTot), e)
      else (s1.(committed := s1.committed + Elements(p.plan)), None)
  }

  function RunAll(w: World, s: RunState, todo: seq<Planned>): Report
    decreases |todo|
  {
    if todo == [] then Report(s, [], [])
    else
      OneAttempt(w, RunAll(w, s, todo[..|todo| - 1]), todo[|todo| - 1])
  }

  /** The report after one more transaction. */
  function OneAttempt(w: World, r: Report, p: Planned): Report {
    var (t, e) := Attempt(w, r.state, p);
    if e.Some? then Report(t, r.applied, r.failed + [e.value])
    else Report(t, r.applied + p.plan, r.failed)
  }

  // -------------------------------------------------------------- filtering

  function IfNew(c: ChangeId, known: set<ChangeId>): seq<ChangeId> {
    if c in known then [] else [c]
  }

  function Fresh(cs: seq<ChangeId>, known: set<ChangeId>): (r: seq<ChangeId>)
    ensures forall c :: c in r <==> c in cs && c !in known
  {
    if cs == [] then [] else IfNew(cs[0], known) + Fresh(cs[1..], known)
  }

  lemma Associates(a: seq<ChangeId>, b: seq<ChangeId>, c: seq<ChangeId>)
    ensures a + (b + c) == (a + b) + c
  {
  }

  function IfTouching(w: World, c: ChangeId, r: Repo): seq<ChangeId> {
    if w.repos(c).Some? && r in w.repos(c).value then [c] else []
  }

  /** The changes of `cs` that touch `r`, in order. */
  function Touching(w: World, cs: seq<ChangeId>, r: Repo): seq<ChangeId> {
    if cs == [] then []
    else IfTouching(w, cs[0], r) + Touching(w, cs[1..], r)
  }

  lemma TouchingHead(w: World, c: ChangeId, rest: seq<ChangeId>, r: Repo)
    ensures Touching(w, [c] + rest, r) == IfTouching(w, c, r) + Touching(w, rest, r)
  {
    assert ([c] + rest)[1..] == rest;
  }

  lemma {:induction false} TouchingConcat(w: World, a: seq<ChangeId>, b: seq<ChangeId>, r: Repo)
    ensures Touching(w, a + b, r) == Touching(w, a, r) + Touching(w, b, r)
    decreases |a|
  {
    if a == [] {
      assert a + b == b;
      assert Touching(w, a, r) + Touching(w, b, r) == Touching(w, b, r);
    } else {
      var c, rest := a[0], a[1..];
      assert a + b == [c] + (rest + b);
      TouchingHead(w, c, rest + b, r);
      TouchingConcat(w, rest, b, r);
      Associates(IfTouching(w, c, r), Touching(w, rest, r), Touching(w, b, r));
    }
  }

  lemma FreshHead(c: ChangeId, rest: seq<ChangeId>, known: set<ChangeId>)
    ensures Fresh([c] + rest, known) == IfNew(c, known) + Fresh(rest, known)
  {
    assert ([c] + rest)[1..] == rest;
  }

  lemma {:induction false} FreshSnoc(cs: seq<ChangeId>, c: ChangeId, known: set<ChangeId>)
    ensures Fresh(cs + [c], known) == Fresh(cs, known) + IfNew(c, known)
    decreases |cs|
  {
    if cs == [] {
      FreshHead(c, [], known);
      assert cs + [c] == [c] + [];
      assert IfNew(c, known) + Fresh([], known) == Fresh(cs, known) + IfNew(c, known);
    } else {
      var d, rest := cs[0], cs[1..];
      assert cs + [c] == [d] + (rest + [c]);
      FreshHead(d, rest + [c], known);
      FreshSnoc(rest, c, known);
      Associates(IfNew(d, known), Fresh(rest, known), IfNew(c, known));
    }
  }

  lemma UniqSnoc(s: seq<ChangeId>, c: ChangeId)
    ensures Uniq(s + [c]) == if c in s then Uniq(s) else Uniq(s) + [c]
  {
    assert (s + [c])[..|s + [c]| - 1] == s;
  }

  /** Appending a duplicate-free plan adds exactly its new members. */
  lemma {:induction false} UniqConcat(a: seq<ChangeId>, p: seq<ChangeId>)
    requires NoDup(p)
    ensures Uniq(a + p) == Uniq(a) + Fresh(p, Elements(a))
    decreases |p|
  {
    if p == [] {
      assert a + p == a;
      assert Uniq(a) + Fresh(p, Elements(a)) == Uniq(a);
    } else {
      var init, last := p[..|p| - 1], p[|p| - 1];
      UniqConcat(a, init);
      UniqOneMore(a, init, last);
      assert p == init + [last];
    }
  }

  lemma UniqOneMore(a: seq<ChangeId>, p: seq<ChangeId>, c: ChangeId)
    requires c !in p && Uniq(a + p) == Uniq(a) + Fresh(p, Elements(a))
    ensures Uniq(a + (p + [c])) == Uniq(a) + Fresh(p + [c], Elements(a))
  {
    FreshSnoc(p, c, Elements(a));
    UniqSnoc(a + p, c);
    Associates(a, p, [c]);
    Associates(Uniq(a), Fresh(p, Elements(a)), IfNew(c, Elements(a)));
    if c in a {
      assert Fresh(p, Elements(a)) + [] == Fresh(p, Elements(a));
    } else {
      assert c !in a + p;
    }
  }

  lemma {:induction false} FreshKeepsOrder(cs: seq<ChangeId>, known: set<ChangeId>, d: ChangeId, c: ChangeId)
    requires Precedes(cs, d, c) && d !in known && c !in known
    ensures Precedes(Fresh(cs, known), d, c)
    decreases |cs|
  {
    var i, j :| 0 <= i < j < |cs| && cs[i] == d && cs[j] == c;
    var rest := Fresh(cs[1..], known);
    var all := Fresh(cs, known);
    if i == 0 {
      assert cs[1..][j - 1] == c;
      var n :| 0 <= n < |rest| && rest[n] == c;
      assert all[0] == d && all[n + 1] == c;
    } else {
      assert cs[1..][i - 1] == d && cs[1..][j - 1] == c;
      FreshKeepsOrder(cs[1..], known, d, c);
      var x, y :| 0 <= x < y < |rest| && rest[x] == d && rest[y] == c;
      var k := |all| - |rest|;
      assert all[x + k] == d && all[y + k] == c;
    }
  }

  // --------------------------------------------------- one transaction's facts

  /** A sequence that applies extends every repo by its new changes that touch it. */
  lemma {:induction false} ApplySeqExtends(w: World, s: RunState, cs: seq<ChangeId>)
    requires ApplySeq(w, s, cs).1.None?
    ensures var t := ApplySeq(w, s, cs).0;
      && t.committed == s.committed && t.failedTot == s.failedTot && t.repos.Keys == s.repos.Keys
      && forall r :: r in s.repos ==> t.repos[r] == s.repos[r] + Touching(w, Fresh(cs, s.committed), r)
    decreases |cs|
  {
    if cs != [] {
      if cs[0] in s.committed {
        ApplySeqExtends(w, s, cs[1..]);
        assert Fresh(cs, s.committed) == Fresh(cs[1..], s.committed);
      } else {
        var s1 := s.(repos := ApplyOne(w, s.repos, cs[0]).0);
        ApplySeqExtends(w, s1, cs[1..]);
        var rest := Fresh(cs[1..], s.committed);
        assert Fresh(cs, s.committed) == [cs[0]] + rest;
        assert ApplySeq(w, s, cs) == ApplySeq(w, s1, cs[1..]);
        forall r | r in s.repos
          ensures s1.repos[r] + Touching(w, rest, r) == s.repos[r] + Touching(w, [cs[0]] + rest, r)
        {
          OneMore(w, s.repos, cs[0], rest, r);
        }
      }
    }
  }

  /** One applied change extends exactly the repos it touches. */
  lemma OneMore(w: World, h: Histories, c: ChangeId, rest: seq<ChangeId>, r: Repo)
    requires ApplyOne(w, h, c).1.None? && r in h
    ensures ApplyOne(w, h, c).0[r] + Touching(w, rest, r) == h[r] + Touching(w, [c] + rest, r)
  {
    TouchingHead(w, c, rest, r);
    var head := IfTouching(w, c, r);
    assert h[r] + head == ApplyOne(w, h, c).0[r];
    Associates(h[r], head, Touching(w, rest, r));
  }

  /** Whatever happens, only repos recorded for some member of the sequence change. */
  lemma {:induction false} ApplySeqLocal(w: World, s: RunState, cs: seq<ChangeId>)
    ensures var t := ApplySeq(w, s, cs).0;
      && t.committed == s.committed && t.repos.Keys == s.repos.Keys
      && forall r :: r in s.repos && (forall c :: c in cs && w.repos(c).Some? ==> r !in w.repos(c).value)
           ==> t.repos[r] == s.repos[r]
    decreases |cs|
  {
    if cs != [] {
      assert forall c :: c in cs[1..] ==> c in cs;
      assert cs[0] in cs;
      if cs[0] in s.committed {
        ApplySeqLocal(w, s, cs[1..]);
      } else {
        ApplySeqLocal(w, s.(repos := ApplyOne(w, s.repos, cs[0]).0), cs[1..]);
      }
    }
  }

  /** Only a member that was not committed can newly be known not to apply. */
  lemma {:induction false} ApplySeqFailure(w: World, s: RunState, cs: seq<ChangeId>)
    ensures var t := ApplySeq(w, s, cs).0;
      && (forall x :: x in s.failedTot ==> x in t.failedTot)
      && (forall x :: x in t.failedTot ==> x in s.failedTot || (x in cs && x !in s.committed))
      && (ApplySeq(w, s, cs).1.Some? ==> ApplySeq(w, s, cs).1.value.patch in cs)
    decreases |cs|
  {
    if cs != [] {
      if cs[0] in s.committed {
        ApplySeqFailure(w, s, cs[1..]);
      } else {
        ApplySeqFailure(w, s.(repos := ApplyOne(w, s.repos, cs[0]).0), cs[1..]);
      }
    }
  }

  /** A transaction with a member known not to apply changes nothing at all. */
  lemma KnownBadBlocks(w: World, s: RunState, p: Planned, x: ChangeId)
    requires x in p.plan && x in s.failedTot
    ensures Attempt(w, s, p).1.Some? && Attempt(w, s, p).0 == s
  {
  }

  /** A failed transaction leaves no trace in any repo or in the committed set; a successful one lands in full. */
  lemma AttemptOutcome(w: World, s: RunState, p: Planned)
    ensures var (t, e) := Attempt(w, s, p);
      if e.Some? then
        && t.repos == s.repos && t.committed == s.committed
        && (e.value.patch == p.change || Some(e.value.patch) == FirstMissing(w, p.plan))
        && (forall x :: x in s.failedTot ==> x in t.failedTot)
        && (forall x :: x in t.failedTot ==> x in s.failedTot || (x in p.plan && x !in s.committed))
      else
        && t.committed == s.committed + Elements(p.plan) && t.failedTot == s.failedTot
        && FirstMissing(w, p.plan).None?
        && (forall x :: x in p.plan ==> x !in s.failedTot)
        && t.repos.Keys == s.repos.Keys
        && forall r :: r in s.repos ==> t.repos[r] == s.repos[r] + Touching(w, Fresh(p.plan, s.committed), r)
  {
    ApplySeqFailure(w, s, p.plan);
    if Attempt(w, s, p).1.None? {
      ApplySeqExtends(w, s, p.plan);
    }
  }

  // ------------------------------------------------------------ whole runs

  /** `p` was planned in a round that began with caches `k0` and ended with `committed` committed. */
  ghost predicate WellPlanned(w: World, m: Mode, k0: Caches, committed: set<ChangeId>, p: Planned) {
    && NoDup(p.plan)
    && (forall x :: x in p.plan ==> x !in committed && Explored(w, m, k0, p.plan, x))
    && (forall x :: x in p.plan ==> Reachable(w, m, k0, p.change, x))
    && (forall x, d :: x in p.plan && Edge(w, m, k0, x, d) && !OnCycle(w, m, k0, x) ==> Precedes(p.plan, d, x))
    && (if p.plan == [] then p.change in committed else p.change in p.plan)
  }

  ghost predicate AllPlanned(w: World, m: Mode, k0: Caches, committed: set<ChangeId>, todo: seq<Planned>) {
    forall p :: p in todo ==> WellPlanned(w, m, k0, committed, p)
  }

  lemma AllPlannedPrefix(w: World, m: Mode, k0: Caches, committed: set<ChangeId>, todo: seq<Planned>)
    requires AllPlanned(w, m, k0, committed, todo) && todo != []
    ensures AllPlanned(w, m, k0, committed, todo[..|todo| - 1])
    ensures WellPlanned(w, m, k0, committed, todo[|todo| - 1])
  {
    assert todo[|todo| - 1] in todo;
  }

  /**
    Atomicity over a run: every repo's history is its starting history plus
    exactly the applied changes that touch it, in that order and each once;
    and the committed set has grown by exactly the applied changes.
   */
  lemma {:induction false} RunIsAtomic(w: World, m: Mode, k0: Caches, s: RunState, todo: seq<Planned>)
    requires AllPlanned(w, m, k0, s.committed, todo)
    ensures var r := RunAll(w, s, todo);
      && r.state.committed == s.committed + Elements(r.applied)
      && (forall x :: x in r.applied ==> x !in s.committed)
      && r.state.repos.Keys == s.repos.Keys
      && forall g :: g in s.repos ==> r.state.repos[g] == s.repos[g] + Touching(w, Uniq(r.applied), g)
    decreases |todo|
  {
    if todo != [] {
      AllPlannedPrefix(w, m, k0, s.committed, todo);
      RunIsAtomic(w, m, k0, s, todo[..|todo| - 1]);
      AtomicStep(w, m, k0, s, RunAll(w, s, todo[..|todo| - 1]), todo[|todo| - 1]);
    }
  }

  ghost predicate Atomic(w: World, s: RunState, r: Report) {
    && r.state.committed == s.committed + Elements(r.applied)
    && (forall x :: x in r.applied ==> x !in s.committed)
    && r.state.repos.Keys == s.repos.Keys
    && forall g :: g in s.repos ==> r.state.repos[g] == s.repos[g] + Touching(w, Uniq(r.applied), g)
  }

  lemma AtomicStep(w: World, m: Mode, k0: Caches, s: RunState, r: Report, p: Planned)
    requires Atomic(w, s, r) && WellPlanned(w, m, k0, s.committed, p)
    ensures Atomic(w, s, OneAttempt(w, r, p))
  {
    AttemptOutcome(w, r.state, p);
    if Attempt(w, r.state, p).1.None? {
      AtomicGrowth(w, s, r, p.plan, OneAttempt(w, r, p));
    }
  }

  lemma AtomicGrowth(w: World, s: RunState, r: Report, plan: seq<ChangeId>, r': Report)
    requires Atomic(w, s, r) && NoDup(plan) && forall x :: x in plan ==> x !in s.committed
    requires r'.applied == r.applied + plan && r'.state.committed == r.state.committed + Elements(plan)
    requires r'.state.repos.Keys == r.state.repos.Keys
    requires forall g :: g in r.state.repos ==>
               r'.state.repos[g] == r.state.repos[g] + Touching(w, Fresh(plan, r.state.committed), g)
    ensures Atomic(w, s, r')
  {
    ElementsConcat(r.applied, plan);
    forall x | x in r'.applied ensures x !in s.committed {
      assert x in r.applied || x in plan;
    }
    forall g | g in s.repos ensures r'.state.repos[g] == s.repos[g] + Touching(w, Uniq(r'.applied), g) {
      var done, more := Touching(w, Uniq(r.applied), g), Touching(w, Fresh(plan, r.state.committed), g);
      OneMorePlan(w, s.committed, r.applied, plan, g);
      Associates(s.repos[g], done, more);
    }
  }

  lemma ElementsConcat(a: seq<ChangeId>, b: seq<ChangeId>)
    ensures Elements(a + b) == Elements(a) + Elements(b)
  {
  }

  /** What a plan adds to the applied changes of a repo is what it adds to its history. */
  lemma OneMorePlan(w: World, committed: set<ChangeId>, applied: seq<ChangeId>, plan: seq<ChangeId>, g: Repo)
    requires NoDup(plan) && forall x :: x in plan ==> x !in committed
    ensures Touching(w, Uniq(applied + plan), g)
         == Touching(w, Uniq(applied), g) + Touching(w, Fresh(plan, committed + Elements(applied)), g)
  {
    UniqConcat(applied, plan);
    FreshAgrees(plan, Elements(applied), committed + Elements(applied));
    TouchingConcat(w, Uniq(applied), Fresh(plan, Elements(applied)), g);
  }

  lemma {:induction false} FreshAgrees(cs: seq<ChangeId>, a: set<ChangeId>, b: set<ChangeId>)
    requires forall c :: c in cs ==> (c in a <==> c in b)
    ensures Fresh(cs, a) == Fresh(cs, b)
  {
    if cs != [] {
      var c := cs[0];
      assert c in cs;
      FreshAgrees(cs[1..], a, b);
    }
  }

  /** Every dependency still needed by an applied change is applied. */
  lemma {:induction false} AppliedIsClosed(w: World, m: Mode, k0: Caches, s: RunState, todo: seq<Planned>,
                                           x: ChangeId, d: ChangeId)
    requires AllPlanned(w, m, k0, s.committed, todo)
    requires x in RunAll(w, s, todo).applied && Edge(w, m, k0, x, d)
    ensures d in RunAll(w, s, todo).applied
    decreases |todo|
  {
    AllPlannedPrefix(w, m, k0, s.committed, todo);
    var r, p := RunAll(w, s, todo[..|todo| - 1]), todo[|todo| - 1];
    if x in r.applied {
      AppliedIsClosed(w, m, k0, s, todo[..|todo| - 1], x, d);
    } else {
      assert x in p.plan && Explored(w, m, k0, p.plan, x);
    }
  }

  /** It comes first unless the change lies on a cycle. */
  lemma {:induction false} AppliedIsOrdered(w: World, m: Mode, k0: Caches, s: RunState, todo: seq<Planned>,
                                            x: ChangeId, d: ChangeId)
    requires AllPlanned(w, m, k0, s.committed, todo)
    requires x in RunAll(w, s, todo).applied && Edge(w, m, k0, x, d) && !OnCycle(w, m, k0, x)
    ensures Precedes(Uniq(RunAll(w, s, todo).applied), d, x)
    decreases |todo|
  {
    AllPlannedPrefix(w, m, k0, s.committed, todo);
    var r, p := RunAll(w, s, todo[..|todo| - 1]), todo[|todo| - 1];
    if Attempt(w, r.state, p).1.Some? {
      AppliedIsOrdered(w, m, k0, s, todo[..|todo| - 1], x, d);
    } else {
      var all, added := Uniq(r.applied), Fresh(p.plan, Elements(r.applied));
      UniqConcat(r.applied, p.plan);
      if x in r.applied {
        AppliedIsOrdered(w, m, k0, s, todo[..|todo| - 1], x, d);
      } else {
        assert x in p.plan;
        if d !in r.applied {
          FreshKeepsOrder(p.plan, Elements(r.applied), d, x);
        }
      }
      PrecedesInConcat(all, added, d, x);
    }
  }

  lemma PrecedesInConcat(a: seq<ChangeId>, b: seq<ChangeId>, d: ChangeId, x: ChangeId)
    requires Precedes(a, d, x) || Precedes(b, d, x) || (d in a && x in b)
    ensures Precedes(a + b, d, x)
  {
    var c := a + b;
    if Precedes(a, d, x) {
      var i, j :| 0 <= i < j < |a| && a[i] == d && a[j] == x;
      assert c[i] == d && c[j] == x;
    } else if Precedes(b, d, x) {
      var i, j :| 0 <= i < j < |b| && b[i] == d && b[j] == x;
      assert c[|a| + i] == d && c[|a| + j] == x;
    } else {
      var i :| 0 <= i < |a| && a[i] == d;
      var j :| 0 <= j < |b| && b[j] == x;
      assert c[i] == d && c[|a| + j] == x;
    }
  }

  /** A change known not to apply is never among the applied ones, and stays known. */
  lemma {:induction false} KnownBadNeverApplied(w: World, m: Mode, k0: Caches, s: RunState, todo: seq<Planned>)
    requires AllPlanned(w, m, k0, s.committed, todo)
    ensures var r := RunAll(w, s, todo);
      && (forall x :: x in s.failedTot ==> x in r.state.failedTot)
      && (forall x :: x in r.state.failedTot ==> x !in r.applied)
    decreases |todo|
  {
    if todo != [] {
      AllPlannedPrefix(w, m, k0, s.committed, todo);
      KnownBadNeverApplied(w, m, k0, s, todo[..|todo| - 1]);
      RunIsAtomic(w, m, k0, s, todo[..|todo| - 1]);
      AttemptOutcome(w, RunAll(w, s, todo[..|todo| - 1]).state, todo[|todo| - 1]);
    }
  }

  // --------------------------------------------------- is every change accounted for?

  ghost predicate HasBlame(failed: seq<PatchError>, c: ChangeId) {
    exists e :: e in failed && e.patch == c
  }

  /** `c` was applied, or was committed already, or is blamed. */
  ghost predicate Accounted(s: RunState, r: Report, c: ChangeId) {
    c in r.applied || c in s.committed || HasBlame(r.failed, c)
  }

  /** Some attempted plan is refused because of `c` itself. */
  ghost predicate RefusedFor(w: World, todo: seq<Planned>, c: ChangeId) {
    exists p :: p in todo && FirstMissing(w, p.plan) == Some(c)
  }

  lemma {:induction false} AccountedIfLocatable(w: World, s: RunState, todo: seq<Planned>, m: Mode, k0: Caches, p: Planned)
    requires AllPlanned(w, m, k0, s.committed, todo) && p in todo
    requires FirstMissing(w, p.plan).None?
    ensures Accounted(s, RunAll(w, s, todo), p.change)
    decreases |todo|
  {
    AllPlannedPrefix(w, m, k0, s.committed, todo);
    var init, last := todo[..|todo| - 1], todo[|todo| - 1];
    var r, t := RunAll(w, s, init), RunAll(w, s, todo);
    AttemptOutcome(w, r.state, last);
    if p in init {
      AccountedIfLocatable(w, s, init, m, k0, p);
      if HasBlame(r.failed, p.change) {
        var e :| e in r.failed && e.patch == p.change;
        assert e in t.failed;
      }
    } else if Attempt(w, r.state, last).1.Some? {
      assert t.failed[|t.failed| - 1].patch == p.change;
    }
  }

  lemma {:induction false} RefusedIsBlamed(w: World, s: RunState, todo: seq<Planned>, p: Planned)
    requires p in todo && FirstMissing(w, p.plan).Some?
    ensures HasBlame(RunAll(w, s, todo).failed, FirstMissing(w, p.plan).value)
    decreases |todo|
  {
    var init, last := todo[..|todo| - 1], todo[|todo| - 1];
    var r, t := RunAll(w, s, init), RunAll(w, s, todo);
    if p in init {
      RefusedIsBlamed(w, s, init, p);
      var e :| e in r.failed && e.patch == FirstMissing(w, p.plan).value;
      assert e in t.failed;
    } else {
      assert t.failed[|t.failed| - 1].patch == FirstMissing(w, p.plan).value;
    }
  }

  /** A plan holding `c` holds all that is reachable from `c`. */
  lemma PlanHoldsReachable(w: World, m: Mode, k0: Caches, committed: set<ChangeId>, p: Planned, c: ChangeId, x: ChangeId)
    requires WellPlanned(w, m, k0, committed, p) && c in p.plan && Reachable(w, m, k0, c, x)
    ensures x in p.plan
  {
    var q :| |q| > 0 && q[0] == c && q[|q| - 1] == x && Walk(w, m, k0, q);
    WalkStaysPlanned(w, m, k0, p.plan, q);
  }

  /** When something `c` needs is in no checkout, nothing ever applies or blames `c` except a refusal for `c` itself. */
  lemma {:induction false} UnlocatableIsSilent(w: World, s: RunState, todo: seq<Planned>, m: Mode, k0: Caches,
                                               c: ChangeId, x: ChangeId)
    requires AllPlanned(w, m, k0, s.committed, todo)
    requires Reachable(w, m, k0, c, x) && w.repos(x).None?
    requires !RefusedFor(w, todo, c) && c !in s.committed
    ensures c !in RunAll(w, s, todo).applied && !HasBlame(RunAll(w, s, todo).failed, c)
    decreases |todo|
  {
    if todo != [] {
      AllPlannedPrefix(w, m, k0, s.committed, todo);
      var init, last := todo[..|todo| - 1], todo[|todo| - 1];
      assert last in todo && forall p :: p in init ==> p in todo;
      UnlocatableIsSilent(w, s, init, m, k0, c, x);
      AttemptOutcome(w, RunAll(w, s, init).state, last);
      if c in last.plan {
        PlanHoldsReachable(w, m, k0, s.committed, last, c, x);
        assert FirstMissing(w, last.plan).Some?;
      }
      assert FirstMissing(w, last.plan) != Some(c);
    }
  }

  /**
    Exactly when a planned change is accounted for: all of its plan is in the
    manifest, or some plan is refused for that very change.  A plan refused
    for another member is blamed on that member only, because the refusal is
    raised on entry to the transaction, outside the wrapping.
   */
  lemma AccountedExactlyWhen(w: World, s: RunState, todo: seq<Planned>, m: Mode, k0: Caches, p: Planned)
    requires AllPlanned(w, m, k0, s.committed, todo) && p in todo
    ensures Accounted(s, RunAll(w, s, todo), p.change) <==>
              FirstMissing(w, p.plan).None? || RefusedFor(w, todo, p.change)
  {
    if FirstMissing(w, p.plan).None? {
      AccountedIfLocatable(w, s, todo, m, k0, p);
    } else if RefusedFor(w, todo, p.change) {
      var q :| q in todo && FirstMissing(w, q.plan) == Some(p.change);
      RefusedIsBlamed(w, s, todo, q);
    } else {
      UnlocatableIsSilent(w, s, todo, m, k0, p.change, FirstMissing(w, p.plan).value);
    }
  }
}
