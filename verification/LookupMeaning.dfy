/**
  What a lookup of dependencies answers, dependency by dependency: which of
  them are still needed, which make it fail, and what it remembers.
 */
module LookupMeaning {
  import opened Basics
  import opened PatchModel

  /** A dependency that has to be planned: not committed, served, known to gerrit and not merged. */
  predicate Live(w: World, k: Caches, d: ChangeId) {
    && d !in k.committed && w.helper(d) && !w.merged(d)
    && (d in k.lookup || w.query(d) == Found)
  }

  /** Gerrit has to be asked about the dependency, and fails. */
  predicate Unanswered(w: World, k: Caches, d: ChangeId) {
    d !in k.committed && w.helper(d) && d !in k.lookup && w.query(d) == QueryFailed
  }

  /** A dependency that has to be planned and must not be. */
  predicate OutOfLimit(w: World, m: Mode, k: Caches, d: ChangeId) {
    Live(w, k, d) && m.limitTo.Some? && d !in m.limitTo.value
  }

  predicate Stops(w: World, m: Mode, k: Caches, d: ChangeId) {
    Unanswered(w, k, d) || OutOfLimit(w, m, k, d)
  }

  /** The first dependency that makes the lookup fail. */
  ghost predicate FirstStop(w: World, m: Mode, k: Caches, ds: seq<ChangeId>, i: int) {
    && 0 <= i < |ds| && Stops(w, m, k, ds[i])
    && forall j :: 0 <= j < i ==> !Stops(w, m, k, ds[j])
  }

  ghost predicate Stopped(w: World, m: Mode, k: Caches, ds: seq<ChangeId>) {
    exists i :: FirstStop(w, m, k, ds, i)
  }

  /** Gerrit is asked about the dependency and serves it. */
  predicate Learned(w: World, k: Caches, d: ChangeId) {
    d !in k.committed && w.helper(d) && d !in k.lookup && w.query(d) == Found
  }

  /** Two cache states that judge every change alike. */
  ghost predicate Alike(w: World, k: Caches, k': Caches) {
    forall d :: (Live(w, k, d) <==> Live(w, k', d)) && (Unanswered(w, k, d) <==> Unanswered(w, k', d))
  }

  /** Examining one dependency: what it means, and that nothing else is judged differently afterwards. */
  lemma ExamineMeans(w: World, m: Mode, k: Caches, d: ChangeId)
    ensures var (a, k') := Examine(w, m, k, d);
      && Alike(w, k, k')
      && (a.Fail? <==> Stops(w, m, k, d))
      && (a.Need? <==> Live(w, k, d) && !Stops(w, m, k, d))
      && (Unanswered(w, k, d) ==> a == Fail(Gerrit))
      && (OutOfLimit(w, m, k, d) ==> a == Fail(Patch(PatchError(d, false, if m.submitting then Rejected else NotEligible))))
      && k'.deps == k.deps
      && k'.lookup == k.lookup + (if Learned(w, k, d) then {d} else {})
      && k'.committed == k.committed + (if Learned(w, k, d) && w.merged(d) then {d} else {})
  {
  }

  lemma StopsAlike(w: World, m: Mode, k: Caches, k': Caches, ds: seq<ChangeId>)
    requires Alike(w, k, k')
    ensures forall i :: FirstStop(w, m, k, ds, i) <==> FirstStop(w, m, k', ds, i)
    ensures forall d :: Stops(w, m, k, d) <==> Stops(w, m, k', d)
  {
  }

  /** The elements of `ds` that `keep` accepts, in order. */
  function Filter(ds: seq<ChangeId>, keep: ChangeId -> bool): (r: seq<ChangeId>)
    ensures forall d :: d in r <==> d in ds && keep(d)
  {
    if ds == [] then [] else (if keep(ds[0]) then [ds[0]] else []) + Filter(ds[1..], keep)
  }

  lemma {:induction false} FilterSame(ds: seq<ChangeId>, p: ChangeId -> bool, q: ChangeId -> bool)
    requires forall d :: d in ds ==> p(d) == q(d)
    ensures Filter(ds, p) == Filter(ds, q)
  {
    if ds != [] {
      var d := ds[0];
      assert d in ds;
      FilterSame(ds[1..], p, q);
    }
  }

  lemma {:induction false} FilterTwice(ds: seq<ChangeId>, p: ChangeId -> bool, q: ChangeId -> bool, both: ChangeId -> bool)
    requires forall d :: both(d) == (p(d) && q(d))
    ensures Filter(Filter(ds, p), q) == Filter(ds, both)
  {
    if ds != [] {
      var rest := Filter(ds[1..], p);
      FilterTwice(ds[1..], p, q, both);
      if p(ds[0]) {
        FilterHead(ds[0], rest, q);
      } else {
        assert [] + rest == rest;
      }
    }
  }

  lemma FilterHead(d: ChangeId, rest: seq<ChangeId>, keep: ChangeId -> bool)
    ensures Filter([d] + rest, keep) == (if keep(d) then [d] else []) + Filter(rest, keep)
  {
    assert ([d] + rest)[1..] == rest;
  }

  lemma {:induction false} AcceptedIsFilter(w: World, ds: seq<ChangeId>)
    ensures Accepted(w, ds) == Filter(ds, w.accept)
  {
    if ds != [] {
      AcceptedIsFilter(w, ds[1..]);
    }
  }

  lemma FirstStopLater(w: World, m: Mode, k: Caches, ds: seq<ChangeId>, i: int)
    requires ds != [] && !Stops(w, m, k, ds[0])
    ensures FirstStop(w, m, k, ds, i + 1) <==> FirstStop(w, m, k, ds[1..], i)
  {
    if FirstStop(w, m, k, ds, i + 1) {
      forall j | 0 <= j < i ensures !Stops(w, m, k, ds[1..][j]) {
        assert !Stops(w, m, k, ds[j + 1]);
      }
    }
    if FirstStop(w, m, k, ds[1..], i) {
      forall j | 0 <= j < i + 1 ensures !Stops(w, m, k, ds[j]) {
        if j > 0 {
          assert !Stops(w, m, k, ds[1..][j - 1]);
        }
      }
    }
  }

  function StopError(w: World, m: Mode, k: Caches, d: ChangeId): Raised {
    if Unanswered(w, k, d) then Gerrit
    else Patch(PatchError(d, false, if m.submitting then Rejected else NotEligible))
  }

  function IsLive(w: World, k: Caches): ChangeId -> bool {
    d => Live(w, k, d)
  }

  function IsNeeded(w: World, k: Caches): ChangeId -> bool {
    d => Live(w, k, d) && w.accept(d)
  }

  lemma StopErrorAlike(w: World, m: Mode, k: Caches, k': Caches, d: ChangeId)
    requires Alike(w, k, k')
    ensures StopError(w, m, k, d) == StopError(w, m, k', d)
  {
  }

  /** The lookup stops at the first dependency that must not be planned or is not answered; else it keeps the live ones. */
  lemma {:induction false} LookupAllMeans(w: World, m: Mode, k: Caches, ds: seq<ChangeId>)
    ensures var r := LookupAll(w, m, k, ds).0;
      && (r.Err? <==> Stopped(w, m, k, ds))
      && (forall i :: FirstStop(w, m, k, ds, i) ==> r == Err(StopError(w, m, k, ds[i])))
      && (r.Ok? ==> r.value == Filter(ds, IsLive(w, k)))
    decreases |ds|, 0
  {
    if ds != [] {
      var d := ds[0];
      var k' := Examine(w, m, k, d).1;
      ExamineMeans(w, m, k, d);
      if Stops(w, m, k, d) {
        assert FirstStop(w, m, k, ds, 0);
      } else {
        LookupRestMeans(w, m, k, ds, k');
      }
    }
  }

  lemma {:induction false} LookupRestMeans(w: World, m: Mode, k: Caches, ds: seq<ChangeId>, k': Caches)
    requires ds != [] && !Stops(w, m, k, ds[0]) && Alike(w, k, k')
    ensures var r := LookupAll(w, m, k', ds[1..]).0;
      && (r.Err? <==> Stopped(w, m, k, ds))
      && (forall i :: FirstStop(w, m, k, ds, i) ==> i > 0 && r == Err(StopError(w, m, k, ds[i])))
      && (r.Ok? ==> r.value == Filter(ds[1..], IsLive(w, k)))
    decreases |ds| - 1, 1
  {
    LookupAllMeans(w, m, k', ds[1..]);
    StopsAlike(w, m, k, k', ds[1..]);
    FilterSame(ds[1..], IsLive(w, k), IsLive(w, k'));
    var r := LookupAll(w, m, k', ds[1..]).0;
    forall i | FirstStop(w, m, k, ds, i) ensures i > 0 && r == Err(StopError(w, m, k, ds[i])) {
      FirstStopLater(w, m, k, ds, i - 1);
      StopErrorAlike(w, m, k, k', ds[i]);
    }
    if i :| FirstStop(w, m, k', ds[1..], i) {
      FirstStopLater(w, m, k, ds, i);
      assert FirstStop(w, m, k, ds, i + 1);
    }
  }

  /** A lookup asks about the first `n` dependencies: all, or those up to the one that stops it. */
  ghost predicate Asks(w: World, m: Mode, k: Caches, ds: seq<ChangeId>, n: int) {
    FirstStop(w, m, k, ds, n - 1) || (n == |ds| && !Stopped(w, m, k, ds))
  }

  ghost function LearnedIn(w: World, k: Caches, ds: seq<ChangeId>): set<ChangeId> {
    set d | d in ds && Learned(w, k, d)
  }

  ghost function MergedIn(w: World, ds: set<ChangeId>): set<ChangeId> {
    set d | d in ds && w.merged(d)
  }

  lemma AsksRest(w: World, m: Mode, k: Caches, ds: seq<ChangeId>, n: int, k': Caches)
    requires ds != [] && !Stops(w, m, k, ds[0]) && Alike(w, k, k') && Asks(w, m, k, ds, n)
    ensures n > 0 && Asks(w, m, k', ds[1..], n - 1)
  {
    StopsAlike(w, m, k, k', ds[1..]);
    if FirstStop(w, m, k, ds, n - 1) {
      FirstStopLater(w, m, k, ds, n - 2);
    } else {
      forall i ensures !FirstStop(w, m, k', ds[1..], i) {
        FirstStopLater(w, m, k, ds, i);
      }
    }
  }

  lemma LearnedHead(w: World, k: Caches, k': Caches, d: ChangeId, rest: seq<ChangeId>)
    requires k'.lookup == k.lookup + (if Learned(w, k, d) then {d} else {})
    requires k'.committed == k.committed + (if Learned(w, k, d) && w.merged(d) then {d} else {})
    ensures LearnedIn(w, k, [d] + rest) == (if Learned(w, k, d) then {d} else {}) + LearnedIn(w, k', rest)
  {
    forall x | x in rest && x != d ensures Learned(w, k, x) <==> Learned(w, k', x) {
    }
  }

  /** What gerrit served on the way is remembered, and the merged ones of that count as committed. */
  lemma {:induction false} LookupRemembers(w: World, m: Mode, k: Caches, ds: seq<ChangeId>, n: int)
    requires Asks(w, m, k, ds, n)
    ensures 0 <= n <= |ds|
    ensures var learned := LearnedIn(w, k, ds[..n]);
            LookupAll(w, m, k, ds).1 == Caches(k.committed + MergedIn(w, learned), k.lookup + learned, k.deps)
    decreases |ds|
  {
    if ds == [] {
      assert LearnedIn(w, k, ds[..n]) == {} && MergedIn(w, {}) == {};
    } else {
      var d := ds[0];
      var k' := Examine(w, m, k, d).1;
      ExamineMeans(w, m, k, d);
      if Stops(w, m, k, d) {
        assert FirstStop(w, m, k, ds, 0) && n == 1;
        assert ds[..1] == [d] + [];
        LearnedHead(w, k, k', d, []);
      } else {
        AsksRest(w, m, k, ds, n, k');
        LookupRemembers(w, m, k', ds[1..], n - 1);
        assert ds[..n] == [d] + ds[1..][..n - 1];
        LearnedHead(w, k, k', d, ds[1..][..n - 1]);
      }
    }
  }

  /**
    What a change still needs: its direct dependencies that are live and
    accepted, in order; or the error of the first one that cannot be answered
    or is out of limit.
   */
  lemma NeedsMeans(w: World, m: Mode, k: Caches, c: ChangeId)
    ensures w.gerritDeps(c).None? ==> Needs(w, m, k, c) == Err(PatchError(c, false, GerritFailure))
    ensures w.gerritDeps(c).Some? ==>
      var ds := w.gerritDeps(c).value;
      && (Needs(w, m, k, c).Err? <==> Stopped(w, m, k, ds))
      && (Needs(w, m, k, c).Ok? ==> Needs(w, m, k, c).value == Filter(ds, IsNeeded(w, k)))
      && forall i :: FirstStop(w, m, k, ds, i) ==> NeedsErr(w, m, k, c, ds[i])
  {
    if w.gerritDeps(c).Some? {
      var ds := w.gerritDeps(c).value;
      LookupAllMeans(w, m, k, ds);
      AcceptedIsFilter(w, Filter(ds, IsLive(w, k)));
      FilterTwice(ds, IsLive(w, k), w.accept, IsNeeded(w, k));
    }
  }

  /** The lookup for `c` fails because of `d`, which the error is about unless gerrit was silent. */
  ghost predicate NeedsErr(w: World, m: Mode, k: Caches, c: ChangeId, d: ChangeId) {
    var refusal := PatchError(d, false, if m.submitting then Rejected else NotEligible);
    Needs(w, m, k, c) == Err(
      if Unanswered(w, k, d) then PatchError(c, false, GerritFailure)
      else if d == c then refusal
      else PatchError(c, false, DependsOn(refusal)))
  }
}
