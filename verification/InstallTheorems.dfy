/** What every run of the install work queue keeps, and what it ends with. */
module InstallTheorems {
  import opened Basics
  import opened DependencyTrees
  import opened PackageDb
  import opened InstallRuns

  // ------------------------------------------------------------- the invariant

  function Once(b: bool): nat { if b then 1 else 0 }

  /** How often a dependency can have been queued, given its flag. */
  function Allowance(s: ScanState, d: Dep): nat {
    if d !in s.seen then 0 else if s.seen[d] then 1 else 2
  }

  ghost predicate WithinAllowance(pops: seq<Dep>, s: ScanState) {
    forall d :: multiset(pops)[d] + Once(d in s.queue) <= Allowance(s, d)
  }

  /** The listed dependencies not yet popped are exactly those flagged, and nothing else is popped before them. */
  ghost predicate ListedFirst(listed: set<Dep>, pops: seq<Dep>, s: ScanState) {
    && s.listed <= s.queue
    && s.listed <= listed
    && Mandatory(s, listed)
    && (forall l :: l in listed ==> (l in s.queue <==> l in s.listed) && (l in s.listed <==> l !in pops))
    && (s.listed != {} ==> forall d :: d in pops ==> d in listed)
  }

  ghost predicate Settled(env: Env, s: ScanState) {
    forall d :: d in s.seen ==> d in s.queue || d.cp in s.installs || !WantsAny(env, d, s.seen[d])
  }

  ghost predicate Sourced(env: Env, s: ScanState) {
    forall cp :: cp in s.installs ==> InstalledFrom(env, s, cp) && InstalledFor(env, s, cp)
  }

  ghost predicate Inv(env: Env, listed: set<Dep>, pops: seq<Dep>, s: ScanState) {
    && s.queue <= s.seen.Keys
    && WithinAllowance(pops, s)
    && ListedFirst(listed, pops, s)
    && Settled(env, s)
    && Sourced(env, s)
  }

  lemma StepScans(env: Env, s: ScanState, d: Dep)
    requires d in s.seen && d.cp !in s.installs
    ensures Scanned(env, Deq(s, d), Step(env, s, d), d, 0, s.listed != {}, s.seen[d])
  {
    ScanScanned(env, Deq(s, d), d, 0, s.listed != {}, s.seen[d]);
    assert RowsIn(env.binpkgs, d.cp)[0..] == RowsIn(env.binpkgs, d.cp);
  }

  lemma StepGrows(env: Env, s: ScanState, d: Dep)
    requires d in s.seen
    ensures Grows(Deq(s, d), Step(env, s, d))
    ensures forall cp :: cp in s.installs ==> cp in Step(env, s, d).installs && Step(env, s, d).installs[cp] == s.installs[cp]
  {
    if d.cp !in s.installs {
      StepScans(env, s, d);
    }
  }

  lemma StepAllowance(env: Env, pops: seq<Dep>, s: ScanState, d: Dep)
    requires WithinAllowance(pops, s) && s.queue <= s.seen.Keys && d in s.queue
    ensures WithinAllowance(pops + [d], Step(env, s, d))
    ensures Step(env, s, d).queue <= Step(env, s, d).seen.Keys
  {
    StepGrows(env, s, d);
    var t := Step(env, s, d);
    forall x ensures multiset(pops + [d])[x] + Once(x in t.queue) <= Allowance(t, x) {
      assert multiset(pops + [d]) == multiset(pops) + multiset{d};
      assert multiset(pops)[x] + Once(x in s.queue) <= Allowance(s, x);
    }
  }

  lemma StepListed(env: Env, listed: set<Dep>, pops: seq<Dep>, s: ScanState, d: Dep)
    requires ListedFirst(listed, pops, s) && s.queue <= s.seen.Keys && MayPop(s, d)
    ensures ListedFirst(listed, pops + [d], Step(env, s, d))
    ensures d in s.queue && (d in listed <==> s.listed != {})
  {
    StepGrows(env, s, d);
    var t := Step(env, s, d);
    assert forall x :: x in pops + [d] <==> x in pops || x == d;
    if d in listed && s.listed == {} {
      assert false;
    }
  }

  lemma StepSettles(env: Env, s: ScanState, d: Dep)
    requires Settled(env, s) && Sourced(env, s) && d in s.seen
    ensures Settled(env, Step(env, s, d)) && Sourced(env, Step(env, s, d))
  {
    StepGrows(env, s, d);
    var t := Step(env, s, d);
    if d.cp !in s.installs {
      StepScans(env, s, d);
    }
    forall x | x in t.seen ensures x in t.queue || x.cp in t.installs || !WantsAny(env, x, t.seen[x]) {
      if x !in t.queue {
        assert x in s.seen && s.seen[x] == t.seen[x];
        if x != d {
          assert x !in s.queue;
        }
      }
    }
    StepSources(env, s, d);
  }

  /** Earlier installs stay as they are, and a new one is asked for by the dependency popped. */
  lemma StepSources(env: Env, s: ScanState, d: Dep)
    requires Sourced(env, s) && d in s.seen
    ensures Sourced(env, Step(env, s, d))
  {
    StepGrows(env, s, d);
    var t := Step(env, s, d);
    if d.cp !in s.installs {
      StepScans(env, s, d);
    }
    forall cp | cp in t.installs ensures InstalledFrom(env, t, cp) && InstalledFor(env, t, cp) {
      if cp in s.installs {
        OldInstall(env, s, t, d, cp);
      } else {
        assert cp == d.cp;
        NewInstall(env, s, d);
      }
    }
  }

  lemma OldInstall(env: Env, s: ScanState, t: ScanState, d: Dep, cp: CP)
    requires InstalledFrom(env, s, cp) && InstalledFor(env, s, cp)
    requires Grows(Deq(s, d), t) && cp in t.installs && cp in s.installs && t.installs[cp] == s.installs[cp]
    ensures InstalledFrom(env, t, cp) && InstalledFor(env, t, cp)
  {
    var i :| 0 <= i < |RowsIn(env.binpkgs, cp)| && FromRow(env, s, cp, i);
    assert FromRow(env, Deq(s, d), cp, i);
    FromRowGrows(env, Deq(s, d), t, cp, i);
    var x, optional :| Asks(env, s, cp, x, optional);
    assert InstalledBy(env, Deq(s, d), x, optional, 0) by {
      var k :| 0 <= k < |RowsIn(env.binpkgs, x.cp)| && LastWanted(env, x, optional, k) && FromRow(env, s, x.cp, k);
      assert FromRow(env, Deq(s, d), x.cp, k);
      forall j | 0 <= j < |RowsIn(env.binpkgs, x.cp)| && Wants(env, x, j, optional)
        ensures Followed(env, Deq(s, d), x.cp, j)
      {
        assert Followed(env, s, x.cp, j);
      }
    }
    InstalledByGrows(env, Deq(s, d), t, x, optional, 0);
    assert Asks(env, t, cp, x, optional);
  }

  lemma NewInstall(env: Env, s: ScanState, d: Dep)
    requires d in s.seen && d.cp !in s.installs && d.cp in Step(env, s, d).installs
    ensures InstalledFrom(env, Step(env, s, d), d.cp) && InstalledFor(env, Step(env, s, d), d.cp)
  {
    StepScans(env, s, d);
    var t := Step(env, s, d);
    assert InstalledBy(env, t, d, s.seen[d], 0);
    assert Asks(env, t, d.cp, d, s.seen[d]);
  }

  lemma {:induction false} RunKeepsInv(env: Env, listed: set<Dep>, pops: seq<Dep>, s: ScanState)
    requires IsRun(env, listed, pops, s)
    ensures Inv(env, listed, pops, s)
    decreases |pops|
  {
    if pops != [] {
      var t := RunLast(env, listed, pops, s);
      var init, d := pops[..|pops| - 1], pops[|pops| - 1];
      RunKeepsInv(env, listed, init, t);
      assert init + [d] == pops;
      StepListed(env, listed, init, t, d);
      StepAllowance(env, init, t, d);
      StepSettles(env, t, d);
    }
  }

  // ------------------------------------------------------------- termination and order of pops

  /** A flag is only ever changed from optional to mandatory. */
  lemma FlagsOnlyHarden(env: Env, s: ScanState, d: Dep, x: Dep)
    requires d in s.seen && x in s.seen
    ensures x in Step(env, s, d).seen && (Step(env, s, d).seen[x] ==> s.seen[x])
  {
    StepGrows(env, s, d);
  }

  /** Removing a popped dependency from the queue never fails, and each one is popped at most twice. */
  lemma PopsAreSafeAndFew(env: Env, listed: set<Dep>, pops: seq<Dep>, s: ScanState)
    requires IsRun(env, listed, pops, s)
    ensures s.listed <= s.queue && s.queue <= s.seen.Keys
    ensures forall d :: multiset(pops)[d] <= 2
    ensures forall d :: d in pops ==> d in s.seen && multiset(pops)[d] <= Allowance(s, d)
  {
    RunKeepsInv(env, listed, pops, s);
    forall d ensures multiset(pops)[d] <= Allowance(s, d) {
      assert multiset(pops)[d] + Once(d in s.queue) <= Allowance(s, d);
    }
    forall d | d in pops ensures d in s.seen {
      assert multiset(pops)[d] > 0;
    }
  }

  /** All listed dependencies are popped before any other. */
  lemma {:induction false} ListedArePoppedFirst(env: Env, listed: set<Dep>, pops: seq<Dep>, s: ScanState, i: nat, j: nat)
    requires IsRun(env, listed, pops, s) && i < j < |pops| && pops[j] in listed
    ensures pops[i] in listed
    decreases |pops|
  {
    var t := RunLast(env, listed, pops, s);
    var init := pops[..|pops| - 1];
    RunKeepsInv(env, listed, init, t);
    StepListed(env, listed, init, t, pops[|pops| - 1]);
    if j < |pops| - 1 {
      ListedArePoppedFirst(env, listed, init, t, i, j);
    } else {
      var x := init[i];
      assert x in init;
    }
  }

  /** Every dependency that can ever be queued. */
  ghost function Universe(env: Env, listed: set<Dep>): set<Dep> {
    listed
      + (set cp, i, d | cp in env.binpkgs && 0 <= i < |env.binpkgs[cp]| && d in env.binpkgs[cp][i].info.rdeps :: d)
      + (if env.target.None? then {} else
           set cp, i, d | cp in env.target.value && 0 <= i < |env.target.value[cp]|
                          && d in env.target.value[cp][i].info.revRdeps :: d)
  }

  lemma {:induction false} SlotEntryIn(es: seq<Entry>, slot: Slot)
    ensures SlotEntry(es, slot).Some? ==> SlotEntry(es, slot).value in es && SlotEntry(es, slot).value.slot == slot
    ensures SlotEntry(es, slot).None? ==> forall e :: e in es ==> e.slot != slot
  {
    if es != [] {
      SlotEntryIn(es[1..], slot);
      var e := es[0];
      assert e in es;
    }
  }

  lemma DependentsInUniverse(env: Env, listed: set<Dep>, cp: CP, slot: Slot)
    ensures Dependents(env, cp, slot) <= Universe(env, listed)
  {
    if env.revRdeps && InTarget(env, cp, slot).Some? {
      var es := env.target.value[cp];
      SlotEntryIn(es, slot);
      var i :| 0 <= i < |es| && es[i] == SlotEntry(es, slot).value;
    }
  }

  lemma {:induction false} ScanStaysInUniverse(env: Env, listed: set<Dep>, s: ScanState, cp: CP, required: Slot,
                                               n: nat, l: bool, optional: bool)
    requires n <= |RowsIn(env.binpkgs, cp)| && s.seen.Keys <= Universe(env, listed)
    ensures Scan(env, s, cp, required, RowsIn(env.binpkgs, cp)[n..], l, optional).seen.Keys <= Universe(env, listed)
    decreases |RowsIn(env.binpkgs, cp)| - n
  {
    var es := RowsIn(env.binpkgs, cp);
    if n < |es| {
      assert es[n..][0] == es[n] && es[n..][1..] == es[n + 1..];
      var req := Narrow(required, es[n].slot);
      var v := NeedsInstall(env, cp, es[n], optional);
      var r := Record(env, s, cp, es[n], l, v);
      DependentsInUniverse(env, listed, cp, es[n].slot);
      assert es[n].info.rdeps <= Universe(env, listed);
      assert r.seen.Keys <= Universe(env, listed);
      ScanStaysInUniverse(env, listed, r, cp, req, n + 1, l, optional);
      ScanStaysInUniverse(env, listed, s, cp, req, n + 1, l, optional);
    }
  }

  lemma {:induction false} SeenInUniverse(env: Env, listed: set<Dep>, pops: seq<Dep>, s: ScanState)
    requires IsRun(env, listed, pops, s)
    ensures s.seen.Keys <= Universe(env, listed)
    decreases |pops|
  {
    if pops != [] {
      var t := RunLast(env, listed, pops, s);
      var d := pops[|pops| - 1];
      SeenInUniverse(env, listed, pops[..|pops| - 1], t);
      assert RowsIn(env.binpkgs, d.cp)[0..] == RowsIn(env.binpkgs, d.cp);
      ScanStaysInUniverse(env, listed, Deq(t, d), d.cp, Wanted(d), 0, t.listed != {}, t.seen[d]);
    }
  }

  /** A multiset in which nothing occurs more than twice. */
  lemma {:induction false} BoundMultiset(m: multiset<Dep>, u: set<Dep>)
    requires forall d :: d in m ==> d in u
    requires forall d :: m[d] <= 2
    ensures |m| <= 2 * |u|
    decreases u
  {
    if u == {} {
      assert m == multiset{};
    } else {
      var x :| x in u;
      BoundMultiset(m[x := 0], u - {x});
      assert |m[x := 0]| + m[x] == |m|;
    }
  }

  /** No run is longer than twice the number of dependencies in the databases and on the list. */
  lemma RunsAreBounded(env: Env, listed: set<Dep>, pops: seq<Dep>, s: ScanState)
    requires IsRun(env, listed, pops, s)
    ensures |pops| <= 2 * |Universe(env, listed)|
  {
    PopsAreSafeAndFew(env, listed, pops, s);
    SeenInUniverse(env, listed, pops, s);
    BoundMultiset(multiset(pops), Universe(env, listed));
    assert |multiset(pops)| == |pops|;
  }

  // ------------------------------------------------------------- closure at exit

  /**
    When the queue has run empty, every dependency ever seen has its package
    among the installs, or no slot it may mean needs installing under its
    final flag; every install was asked for by a seen dependency, as the last
    of the slots that one wants, and what any of these slots needs is seen as
    mandatory.  Packages may have any number of slots.
   */
  lemma ClosedAtExit(env: Env, listed: set<Dep>, pops: seq<Dep>, s: ScanState)
    requires IsRun(env, listed, pops, s) && s.queue == {}
    ensures Mandatory(s, listed)
    ensures forall d :: d in s.seen ==> d.cp in s.installs || !WantsAny(env, d, s.seen[d])
    ensures forall cp :: cp in s.installs ==> InstalledFrom(env, s, cp) && InstalledFor(env, s, cp)
  {
    RunKeepsInv(env, listed, pops, s);
  }

  // ------------------------------------------------------------- a least fixpoint

  /** Two requests for one package, each with its flag, want the same slots. */
  ghost predicate SameSlots(env: Env, d: Dep, optional: bool, d': Dep, optional': bool)
    requires d.cp == d'.cp
  {
    forall i :: 0 <= i < |RowsIn(env.binpkgs, d.cp)| ==> (Wants(env, d, i, optional) <==> Wants(env, d', i, optional'))
  }

  /** All requests there can be for one package want the same slots, or none. */
  ghost predicate Agreeing(env: Env, listed: set<Dep>) {
    forall d, optional, d', optional' ::
      d in Universe(env, listed) && d' in Universe(env, listed) && d.cp == d'.cp
        && WantsAny(env, d, optional) && WantsAny(env, d', optional')
      ==> SameSlots(env, d, optional, d', optional')
  }

  /** In particular when each package asked for has one slot; other packages may have any number. */
  lemma SingleSlotsAgree(env: Env, listed: set<Dep>)
    requires forall d :: d in Universe(env, listed) ==> |RowsIn(env.binpkgs, d.cp)| <= 1
    ensures Agreeing(env, listed)
  {
  }

  /** Each slot `d` wants has its package among `cps`, and what that slot needs among `must` and `may`. */
  ghost predicate Answered(env: Env, d: Dep, optional: bool, must: set<Dep>, may: set<Dep>, cps: set<CP>) {
    forall i :: 0 <= i < |RowsIn(env.binpkgs, d.cp)| && Wants(env, d, i, optional) ==>
      var e := RowsIn(env.binpkgs, d.cp)[i];
      d.cp in cps && (env.rdeps ==> e.info.rdeps <= must) && Dependents(env, d.cp, e.slot) <= may
  }

  /**
    A closed family: `must` holds the listed dependencies and what installs
    need, `may` holds the dependents of installs, `cps` the packages that any
    of these ask to install.
   */
  ghost predicate Closed(env: Env, listed: set<Dep>, must: set<Dep>, may: set<Dep>, cps: set<CP>) {
    && listed <= must
    && (forall d :: d in must ==> Answered(env, d, false, must, may, cps))
    && (forall d :: d in may ==> Answered(env, d, true, must, may, cps))
  }

  /** All a state has found is in the closed family. */
  ghost predicate Inside(s: ScanState, must: set<Dep>, may: set<Dep>, cps: set<CP>) {
    && s.installs.Keys <= cps
    && forall d :: d in s.seen ==> if s.seen[d] then d in may else d in must
  }

  lemma RecordInside(env: Env, s: ScanState, cp: CP, e: Entry, l: bool, v: Verdict,
                     must: set<Dep>, may: set<Dep>, cps: set<CP>)
    requires Inside(s, must, may, cps) && cp in cps
    requires env.rdeps ==> e.info.rdeps <= must
    requires Dependents(env, cp, e.slot) <= may
    ensures Inside(Record(env, s, cp, e, l, v), must, may, cps)
  {
  }

  lemma {:induction false} ScanInside(env: Env, s: ScanState, d: Dep, n: nat, l: bool, optional: bool,
                                      must: set<Dep>, may: set<Dep>, cps: set<CP>)
    requires n <= |RowsIn(env.binpkgs, d.cp)|
    requires Inside(s, must, may, cps) && Answered(env, d, optional, must, may, cps)
    ensures Inside(Scanning(env, s, d, n, l, optional), must, may, cps)
    decreases |RowsIn(env.binpkgs, d.cp)| - n
  {
    var es := RowsIn(env.binpkgs, d.cp);
    if n < |es| {
      var s1 := ScanningStep(env, s, d, n, l, optional);
      if Wants(env, d, n, optional) {
        RecordInside(env, s, d.cp, es[n], l, NeedsInstall(env, d.cp, es[n], optional), must, may, cps);
      }
      ScanInside(env, s1, d, n + 1, l, optional, must, may, cps);
    }
  }

  lemma StepInside(env: Env, listed: set<Dep>, s: ScanState, d: Dep, must: set<Dep>, may: set<Dep>, cps: set<CP>)
    requires Closed(env, listed, must, may, cps) && Inside(s, must, may, cps) && d in s.seen
    ensures Inside(Step(env, s, d), must, may, cps)
  {
    if d.cp !in s.installs {
      StepIsScanning(env, s, d);
      ScanInside(env, Deq(s, d), d, 0, s.listed != {}, s.seen[d], must, may, cps);
    }
  }

  lemma {:induction false} RunInside(env: Env, listed: set<Dep>, pops: seq<Dep>, s: ScanState,
                                     must: set<Dep>, may: set<Dep>, cps: set<CP>)
    requires IsRun(env, listed, pops, s) && Closed(env, listed, must, may, cps)
    ensures Inside(s, must, may, cps)
    decreases |pops|
  {
    if pops != [] {
      var t := RunLast(env, listed, pops, s);
      RunInside(env, listed, pops[..|pops| - 1], t, must, may, cps);
      StepInside(env, listed, t, pops[|pops| - 1], must, may, cps);
    }
  }

  ghost function MustOf(s: ScanState): set<Dep> {
    set d | d in s.seen && !s.seen[d]
  }

  /** Asking for less installs less. */
  lemma OptionalWantsLess(env: Env, d: Dep)
    ensures forall i :: 0 <= i < |RowsIn(env.binpkgs, d.cp)| && Wants(env, d, i, true) ==> Wants(env, d, i, false)
  {
  }

  /** What a seen dependency wants, now or under an earlier flag, has been followed when the queue is empty. */
  lemma FinalAnswers(env: Env, listed: set<Dep>, pops: seq<Dep>, s: ScanState, d: Dep, optional: bool)
    requires Agreeing(env, listed) && IsRun(env, listed, pops, s) && s.queue == {}
    requires d in s.seen && (s.seen[d] ==> optional)
    ensures Answered(env, d, optional, MustOf(s), s.seen.Keys, s.installs.Keys)
  {
    OptionalWantsLess(env, d);
    forall i | 0 <= i < |RowsIn(env.binpkgs, d.cp)| && Wants(env, d, i, optional)
      ensures d.cp in s.installs && Followed(env, s, d.cp, i)
    {
      assert Wants(env, d, i, s.seen[d]);
      FinalFollows(env, listed, pops, s, d, i);
    }
  }

  lemma FinalFollows(env: Env, listed: set<Dep>, pops: seq<Dep>, s: ScanState, d: Dep, i: nat)
    requires Agreeing(env, listed) && IsRun(env, listed, pops, s) && s.queue == {}
    requires d in s.seen && i < |RowsIn(env.binpkgs, d.cp)| && Wants(env, d, i, s.seen[d])
    ensures d.cp in s.installs && Followed(env, s, d.cp, i)
  {
    ClosedAtExit(env, listed, pops, s);
    SeenInUniverse(env, listed, pops, s);
    assert WantsAny(env, d, s.seen[d]);
    var d', optional' :| Asks(env, s, d.cp, d', optional');
    AskedFollows(env, listed, s, d, s.seen[d], d', optional', i);
  }

  /** What agrees with the request behind an install has been followed. */
  lemma AskedFollows(env: Env, listed: set<Dep>, s: ScanState, d: Dep, optional: bool, d': Dep, optional': bool, i: nat)
    requires Agreeing(env, listed) && d in Universe(env, listed) && d' in Universe(env, listed)
    requires i < |RowsIn(env.binpkgs, d.cp)| && Wants(env, d, i, optional) && Asks(env, s, d.cp, d', optional')
    ensures Followed(env, s, d.cp, i)
  {
    assert WantsAny(env, d, optional) && WantsAny(env, d', optional');
    assert SameSlots(env, d, optional, d', optional');
  }

  lemma FinalIsClosed(env: Env, listed: set<Dep>, pops: seq<Dep>, s: ScanState)
    requires Agreeing(env, listed) && IsRun(env, listed, pops, s) && s.queue == {}
    ensures Closed(env, listed, MustOf(s), s.seen.Keys, s.installs.Keys)
  {
    RunKeepsInv(env, listed, pops, s);
    forall d | d in MustOf(s) ensures Answered(env, d, false, MustOf(s), s.seen.Keys, s.installs.Keys) {
      FinalAnswers(env, listed, pops, s, d, false);
    }
    forall d | d in s.seen.Keys ensures Answered(env, d, true, MustOf(s), s.seen.Keys, s.installs.Keys) {
      FinalAnswers(env, listed, pops, s, d, true);
    }
  }

  /** The installed packages are the least closed set: any closed family contains everything the run found. */
  lemma InstallsAreLeastFixpoint(env: Env, listed: set<Dep>, pops: seq<Dep>, s: ScanState,
                                 must: set<Dep>, may: set<Dep>, cps: set<CP>)
    requires IsRun(env, listed, pops, s) && s.queue == {}
    requires Closed(env, listed, must, may, cps)
    ensures s.installs.Keys <= cps && MustOf(s) <= must && s.seen.Keys <= must + may
    ensures Agreeing(env, listed) ==> Closed(env, listed, MustOf(s), s.seen.Keys, s.installs.Keys)
  {
    RunInside(env, listed, pops, s, must, may, cps);
    if Agreeing(env, listed) {
      FinalIsClosed(env, listed, pops, s);
    }
  }

  // ------------------------------------------------------------- what is marked as listed

  /** A package counts as listed exactly when a listed dependency asks for it. */
  ghost predicate ListedRight(env: Env, listed: set<Dep>, s: ScanState) {
    && (forall cp :: cp in s.installs && s.installs[cp].listed ==>
          exists l :: l in listed && l.cp == cp && WantsAny(env, l, false))
    && (forall l :: l in listed && l.cp in s.installs && WantsAny(env, l, false) ==>
          s.installs[l.cp].listed || l in s.listed)
  }

  lemma StepListedRight(env: Env, listed: set<Dep>, pops: seq<Dep>, s: ScanState, d: Dep)
    requires Inv(env, listed, pops, s) && ListedRight(env, listed, s) && MayPop(s, d)
    requires s.listed != {} ==> forall cp :: cp in s.installs ==> s.installs[cp].listed
    ensures d in s.seen && ListedRight(env, listed, Step(env, s, d))
    ensures Step(env, s, d).listed != {} ==>
              forall cp :: cp in Step(env, s, d).installs ==> Step(env, s, d).installs[cp].listed
  {
    StepListed(env, listed, pops, s, d);
    StepGrows(env, s, d);
    var t := Step(env, s, d);
    if d.cp !in s.installs {
      StepScans(env, s, d);
      if d.cp in t.installs {
        assert WantsAny(env, d, s.seen[d]);
      }
    }
    forall l | l in listed && l.cp in t.installs && WantsAny(env, l, false)
      ensures t.installs[l.cp].listed || l in t.listed
    {
      if l.cp !in s.installs && l != d && l !in s.listed {
        assert false;
      }
    }
  }

  lemma {:induction false} RunListedRight(env: Env, listed: set<Dep>, pops: seq<Dep>, s: ScanState)
    requires IsRun(env, listed, pops, s)
    ensures ListedRight(env, listed, s)
    ensures s.listed != {} ==> forall cp :: cp in s.installs ==> s.installs[cp].listed
    decreases |pops|
  {
    if pops != [] {
      var t := RunLast(env, listed, pops, s);
      RunKeepsInv(env, listed, pops[..|pops| - 1], t);
      RunListedRight(env, listed, pops[..|pops| - 1], t);
      StepListedRight(env, listed, pops[..|pops| - 1], t, pops[|pops| - 1]);
    }
  }

  // ------------------------------------------------------------- warnings

  /** The `i`th slot answers the dependency and would replace a package with different USE flags. */
  ghost predicate WarnsAt(env: Env, d: Dep, i: nat, optional: bool)
    requires i < |RowsIn(env.binpkgs, d.cp)|
  {
    Wants(env, d, i, optional) && NeedsInstall(env, d.cp, RowsIn(env.binpkgs, d.cp)[i], optional).useMismatch
  }

  /** One of the slots from the `n`th on warns. */
  ghost predicate WarnsFrom(env: Env, d: Dep, n: nat, optional: bool)
    requires n <= |RowsIn(env.binpkgs, d.cp)|
    decreases |RowsIn(env.binpkgs, d.cp)| - n
  {
    n < |RowsIn(env.binpkgs, d.cp)| && (WarnsAt(env, d, n, optional) || WarnsFrom(env, d, n + 1, optional))
  }

  lemma {:induction false} WarnsSomewhere(env: Env, d: Dep, n: nat, optional: bool)
    requires n <= |RowsIn(env.binpkgs, d.cp)|
    ensures WarnsFrom(env, d, n, optional) <==>
              exists i :: n <= i < |RowsIn(env.binpkgs, d.cp)| && WarnsAt(env, d, i, optional)
    decreases |RowsIn(env.binpkgs, d.cp)| - n
  {
    if n < |RowsIn(env.binpkgs, d.cp)| {
      WarnsSomewhere(env, d, n + 1, optional);
    }
  }

  /** The request as it stands before the `n`th slot is looked at. */
  function Before(env: Env, d: Dep, n: nat): Slot
    requires n <= |RowsIn(env.binpkgs, d.cp)|
  {
    if n == 0 then Wanted(d) else RequiredAt(Wanted(d), RowsIn(env.binpkgs, d.cp), n - 1)
  }

  function Scanning(env: Env, s: ScanState, d: Dep, n: nat, listed: bool, optional: bool): ScanState
    requires n <= |RowsIn(env.binpkgs, d.cp)|
  {
    Scan(env, s, d.cp, Before(env, d, n), RowsIn(env.binpkgs, d.cp)[n..], listed, optional)
  }

  lemma ScanningStep(env: Env, s: ScanState, d: Dep, n: nat, listed: bool, optional: bool) returns (s1: ScanState)
    requires n < |RowsIn(env.binpkgs, d.cp)|
    ensures Scanning(env, s, d, n, listed, optional) == Scanning(env, s1, d, n + 1, listed, optional)
    ensures s1.warned <==> s.warned || WarnsAt(env, d, n, optional)
    ensures var e := RowsIn(env.binpkgs, d.cp)[n];
            s1 == if Wants(env, d, n, optional) then
                    Record(env, s, d.cp, e, listed, NeedsInstall(env, d.cp, e, optional)) else s
  {
    var es := RowsIn(env.binpkgs, d.cp);
    assert es[n..][0] == es[n] && es[n..][1..] == es[n + 1..];
    s1 := if Wants(env, d, n, optional) then
            Record(env, s, d.cp, es[n], listed, NeedsInstall(env, d.cp, es[n], optional)) else s;
  }

  lemma StepIsScanning(env: Env, s: ScanState, d: Dep)
    requires d in s.seen && d.cp !in s.installs
    ensures Step(env, s, d) == Scanning(env, Deq(s, d), d, 0, s.listed != {}, s.seen[d])
  {
    assert RowsIn(env.binpkgs, d.cp)[0..] == RowsIn(env.binpkgs, d.cp);
  }

  lemma {:induction false} ScanWarns(env: Env, s: ScanState, d: Dep, n: nat, listed: bool, optional: bool)
    requires n <= |RowsIn(env.binpkgs, d.cp)|
    ensures Scanning(env, s, d, n, listed, optional).warned <==> s.warned || WarnsFrom(env, d, n, optional)
    decreases |RowsIn(env.binpkgs, d.cp)| - n
  {
    if n < |RowsIn(env.binpkgs, d.cp)| {
      var s1 := ScanningStep(env, s, d, n, listed, optional);
      ScanWarns(env, s1, d, n + 1, listed, optional);
    }
  }

  /** A pop adds a warning exactly when one of the slots it installs, overwritten ones included, differs in USE flags. */
  lemma StepWarnsExactlyWhen(env: Env, s: ScanState, d: Dep)
    requires d in s.seen
    ensures Step(env, s, d).warned <==>
              || s.warned
              || (d.cp !in s.installs && exists i :: 0 <= i < |RowsIn(env.binpkgs, d.cp)| && WarnsAt(env, d, i, s.seen[d]))
  {
    if d.cp !in s.installs {
      ScanWarns(env, Deq(s, d), d, 0, s.listed != {}, s.seen[d]);
      WarnsSomewhere(env, d, 0, s.seen[d]);
      assert RowsIn(env.binpkgs, d.cp)[0..] == RowsIn(env.binpkgs, d.cp);
    }
  }
}
