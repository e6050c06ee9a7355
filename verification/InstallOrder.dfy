/**
  When the order of pops shows.  A run makes a choice where two dependencies
  that may be popped ask for different slots of one package: whichever is
  popped first decides.  Without such a moment all complete runs agree.
 */
module InstallOrder {
  import opened Basics
  import opened DependencyTrees
  import opened PackageDb
  import opened InstallRuns
  import opened InstallTheorems

  // ------------------------------------------------------------- every run can be completed

  ghost predicate IsComplete(env: Env, listed: set<Dep>, pops: seq<Dep>, s: ScanState) {
    IsRun(env, listed, pops, s) && s.queue == {}
  }

  /** From any moment of a run the queue can be worked off, and what is installed stays as it is. */
  lemma {:induction false} Completion(env: Env, listed: set<Dep>, pops: seq<Dep>, s: ScanState)
    returns (all: seq<Dep>, t: ScanState)
    requires IsRun(env, listed, pops, s)
    ensures pops <= all && IsComplete(env, listed, all, t)
    ensures forall cp :: cp in s.installs ==> cp in t.installs && t.installs[cp] == s.installs[cp]
    decreases 2 * |Universe(env, listed)| - |pops|
  {
    RunKeepsInv(env, listed, pops, s);
    if s.queue == {} {
      all, t := pops, s;
    } else {
      var d :| d in if s.listed != {} then s.listed else s.queue;
      RunSnoc(env, listed, pops, s, d);
      RunsAreBounded(env, listed, pops + [d], Step(env, s, d));
      StepGrows(env, s, d);
      all, t := Completion(env, listed, pops + [d], Step(env, s, d));
    }
  }

  // ------------------------------------------------------------- a clear choice shows

  /** Both dependencies may be popped, and each would install their package. */
  ghost predicate Rivals(env: Env, s: ScanState, d: Dep, d': Dep) {
    && d.cp == d'.cp && d.cp !in s.installs
    && MayPop(s, d) && MayPop(s, d') && d in s.seen && d' in s.seen
    && WantsAny(env, d, s.seen[d]) && WantsAny(env, d', s.seen[d'])
  }

  /** The row `d` would install in the end. */
  ghost predicate Picks(env: Env, d: Dep, optional: bool, e: Entry) {
    exists i :: 0 <= i < |RowsIn(env.binpkgs, d.cp)| && LastWanted(env, d, optional, i) && RowsIn(env.binpkgs, d.cp)[i] == e
  }

  /** The two dependencies would install different packages. */
  ghost predicate Clash(env: Env, d: Dep, optional: bool, d': Dep, optional': bool) {
    exists e, e' :: Picks(env, d, optional, e) && Picks(env, d', optional', e')
                    && (e.info.cpv != e'.info.cpv || e.slot != e'.slot)
  }

  /** Two complete runs install differently. */
  ghost predicate OrderShows(env: Env, listed: set<Dep>) {
    exists pops, s, pops', s' ::
      IsComplete(env, listed, pops, s) && IsComplete(env, listed, pops', s') && s.installs != s'.installs
  }

  lemma LastWantedUnique(env: Env, d: Dep, optional: bool, i: nat, j: nat)
    requires i < |RowsIn(env.binpkgs, d.cp)| && j < |RowsIn(env.binpkgs, d.cp)|
    requires LastWanted(env, d, optional, i) && LastWanted(env, d, optional, j)
    ensures i == j
  {
  }

  /** A pop installs the row its dependency picks. */
  lemma PopInstalls(env: Env, s: ScanState, d: Dep, e: Entry)
    requires d in s.seen && d.cp !in s.installs && Picks(env, d, s.seen[d], e)
    ensures var t := Step(env, s, d);
            d.cp in t.installs && t.installs[d.cp].cpv == e.info.cpv && t.installs[d.cp].slot == e.slot
  {
    StepScans(env, s, d);
    var t := Step(env, s, d);
    var i :| 0 <= i < |RowsIn(env.binpkgs, d.cp)| && LastWanted(env, d, s.seen[d], i) && RowsIn(env.binpkgs, d.cp)[i] == e;
    assert Wants(env, d, i, s.seen[d]);
    var j :| 0 <= j < |RowsIn(env.binpkgs, d.cp)| && LastWanted(env, d, s.seen[d], j) && FromRow(env, t, d.cp, j);
    LastWantedUnique(env, d, s.seen[d], i, j);
  }

  /** If at some moment of some run two rivals clash, two complete runs install differently. */
  lemma ClashShows(env: Env, listed: set<Dep>, pops: seq<Dep>, s: ScanState, d: Dep, d': Dep)
    requires IsRun(env, listed, pops, s) && Rivals(env, s, d, d') && Clash(env, d, s.seen[d], d', s.seen[d'])
    ensures OrderShows(env, listed)
  {
    var e, e' :| Picks(env, d, s.seen[d], e) && Picks(env, d', s.seen[d'], e')
                 && (e.info.cpv != e'.info.cpv || e.slot != e'.slot);
    PopInstalls(env, s, d, e);
    PopInstalls(env, s, d', e');
    RunSnoc(env, listed, pops, s, d);
    RunSnoc(env, listed, pops, s, d');
    var all, t := Completion(env, listed, pops + [d], Step(env, s, d));
    var all', t' := Completion(env, listed, pops + [d'], Step(env, s, d'));
    assert t.installs[d.cp] != t'.installs[d.cp];
  }

  /** In particular two clashing listed dependencies, whatever else is followed. */
  lemma ListedClashShows(env: Env, listed: set<Dep>, d: Dep, d': Dep)
    requires d in listed && d' in listed && d.cp == d'.cp && Clash(env, d, false, d', false)
    ensures OrderShows(env, listed)
  {
    var s := Start(listed);
    var e, e' :| Picks(env, d, false, e) && Picks(env, d', false, e') && (e.info.cpv != e'.info.cpv || e.slot != e'.slot);
    PickWants(env, d, false, e);
    PickWants(env, d', false, e');
    assert IsRun(env, listed, [], s);
    ClashShows(env, listed, [], s, d, d');
  }

  lemma PickWants(env: Env, d: Dep, optional: bool, e: Entry)
    requires Picks(env, d, optional, e)
    ensures WantsAny(env, d, optional)
  {
  }

  // ------------------------------------------------------------- who installed a package

  /** Pop `k` of a run, made in state `t`, is the one that installed a package. */
  ghost predicate Installer(env: Env, listed: set<Dep>, pops: seq<Dep>, s: ScanState, k: nat, t: ScanState) {
    && k < |pops| && IsRun(env, listed, pops[..k], t)
    && var d := pops[k];
       && MayPop(t, d) && d in t.seen && d.cp !in t.installs && WantsAny(env, d, t.seen[d])
       && d in s.seen && (s.seen[d] ==> t.seen[d])
       && d.cp in s.installs && InstalledBy(env, s, d, t.seen[d], 0)
       && ((exists i :: 0 <= i < |RowsIn(env.binpkgs, d.cp)| && WarnsAt(env, d, i, t.seen[d])) ==> s.warned)
  }

  /** Later pops do not change who installed a package. */
  lemma InstallerStays(env: Env, listed: set<Dep>, pops: seq<Dep>, s: ScanState, k: nat, t: ScanState, d: Dep)
    requires Installer(env, listed, pops, s, k, t) && d in s.seen
    ensures Installer(env, listed, pops + [d], Step(env, s, d), k, t) && (pops + [d])[k] == pops[k]
  {
    var u, x := Step(env, s, d), pops[k];
    assert (pops + [d])[..k] == pops[..k];
    StepGrows(env, s, d);
    StepWarnsExactlyWhen(env, s, d);
    DeqInstalledBy(env, s, d, x, t.seen[x]);
    InstalledByGrows(env, Deq(s, d), u, x, t.seen[x], 0);
  }

  lemma NewInstaller(env: Env, listed: set<Dep>, pops: seq<Dep>, s: ScanState, d: Dep)
    requires IsRun(env, listed, pops, s) && MayPop(s, d) && d in s.seen && d.cp !in s.installs
    requires WantsAny(env, d, s.seen[d])
    ensures Installer(env, listed, pops + [d], Step(env, s, d), |pops|, s) && (pops + [d])[|pops|] == d
  {
    assert (pops + [d])[..|pops|] == pops;
    StepGrows(env, s, d);
    StepWarnsExactlyWhen(env, s, d);
    StepScans(env, s, d);
  }

  lemma {:induction false} FindInstaller(env: Env, listed: set<Dep>, pops: seq<Dep>, s: ScanState, cp: CP)
    returns (k: nat, t: ScanState)
    requires IsRun(env, listed, pops, s) && cp in s.installs
    ensures Installer(env, listed, pops, s, k, t) && pops[k].cp == cp
    decreases |pops|
  {
    var u := RunLast(env, listed, pops, s);
    var init, d := pops[..|pops| - 1], pops[|pops| - 1];
    assert init + [d] == pops;
    if cp in u.installs {
      k, t := FindInstaller(env, listed, init, u, cp);
      InstallerStays(env, listed, init, u, k, t, d);
    } else {
      k, t := |init|, u;
      StepInstallsOwn(env, u, d, cp);
      NewInstaller(env, listed, init, u, d);
    }
  }

  /** A pop installs its own package only, and only if it wants a slot of it. */
  lemma StepInstallsOwn(env: Env, s: ScanState, d: Dep, cp: CP)
    requires d in s.seen && cp !in s.installs && cp in Step(env, s, d).installs
    ensures cp == d.cp && WantsAny(env, d, s.seen[d])
  {
    if d.cp !in s.installs {
      StepScans(env, s, d);
    }
  }

  /** Popping takes nothing away from what has been followed. */
  lemma DeqInstalledBy(env: Env, s: ScanState, d: Dep, x: Dep, optional: bool)
    requires InstalledBy(env, s, x, optional, 0)
    ensures InstalledBy(env, Deq(s, d), x, optional, 0)
  {
    forall j | 0 <= j < |RowsIn(env.binpkgs, x.cp)| && Wants(env, x, j, optional)
      ensures Followed(env, Deq(s, d), x.cp, j)
    {
      assert Followed(env, s, x.cp, j);
    }
    var i :| 0 <= i < |RowsIn(env.binpkgs, x.cp)| && LastWanted(env, x, optional, i) && FromRow(env, s, x.cp, i);
    assert FromRow(env, Deq(s, d), x.cp, i);
  }

  /** A warning comes from a pop that installed something. */
  lemma {:induction false} FindWarner(env: Env, listed: set<Dep>, pops: seq<Dep>, s: ScanState)
    returns (k: nat, t: ScanState, i: nat)
    requires IsRun(env, listed, pops, s) && s.warned
    ensures Installer(env, listed, pops, s, k, t)
    ensures i < |RowsIn(env.binpkgs, pops[k].cp)| && WarnsAt(env, pops[k], i, t.seen[pops[k]])
    decreases |pops|
  {
    var u := RunLast(env, listed, pops, s);
    var init, d := pops[..|pops| - 1], pops[|pops| - 1];
    assert init + [d] == pops;
    if u.warned {
      k, t, i := FindWarner(env, listed, init, u);
      InstallerStays(env, listed, init, u, k, t, d);
    } else {
      k, t := |init|, u;
      StepWarnsExactlyWhen(env, u, d);
      i :| 0 <= i < |RowsIn(env.binpkgs, d.cp)| && WarnsAt(env, d, i, u.seen[d]);
      assert Wants(env, d, i, u.seen[d]);
      NewInstaller(env, listed, init, u, d);
    }
  }

  /** A warning needs a seen dependency that asks for an installed package with different USE flags. */
  lemma RunWarnedFor(env: Env, listed: set<Dep>, pops: seq<Dep>, s: ScanState)
    requires IsRun(env, listed, pops, s) && s.warned
    ensures exists d, i :: Due(env, s, d, i)
  {
    var k, t, i := FindWarner(env, listed, pops, s);
    var d := pops[k];
    OptionalWantsLess(env, d);
    assert Due(env, s, d, i);
  }

  /** Dependency `d` asks for an installed package, and its `i`th slot differs in USE flags from the package it replaces. */
  ghost predicate Due(env: Env, s: ScanState, d: Dep, i: int) {
    && d in s.seen && d.cp in s.installs
    && 0 <= i < |RowsIn(env.binpkgs, d.cp)| && WarnsAt(env, d, i, s.seen[d])
  }

  /** If all requests for one package agree on its slots, a warning was shown exactly when one is due. */
  lemma RunWarnedRight(env: Env, listed: set<Dep>, pops: seq<Dep>, s: ScanState)
    requires IsRun(env, listed, pops, s) && Agreeing(env, listed)
    ensures s.warned <==> exists d, i :: Due(env, s, d, i)
  {
    if s.warned {
      RunWarnedFor(env, listed, pops, s);
    }
    if d, i :| Due(env, s, d, i) {
      SeenInUniverse(env, listed, pops, s);
      var k, t := FindInstaller(env, listed, pops, s, d.cp);
      assert WantsAny(env, d, s.seen[d]);
      assert SameSlots(env, d, s.seen[d], pops[k], t.seen[pops[k]]);
      assert Wants(env, pops[k], i, t.seen[pops[k]]);
      assert WarnsAt(env, pops[k], i, t.seen[pops[k]]);
    }
  }

  // ------------------------------------------------------------- without a choice the order does not show

  /** No request there can be wants other slots as mandatory than as optional, unless it wants none as optional. */
  ghost predicate Steady(env: Env, listed: set<Dep>) {
    forall d :: d in Universe(env, listed) && WantsAny(env, d, true) ==> SameSlots(env, d, true, d, false)
  }

  /** Rivals that want different slots. */
  ghost predicate Dilemma(env: Env, s: ScanState, d: Dep, d': Dep) {
    Rivals(env, s, d, d') && !SameSlots(env, d, s.seen[d], d', s.seen[d'])
  }

  /** No run ever comes to a choice. */
  ghost predicate NoChoice(env: Env, listed: set<Dep>) {
    forall pops, s, d, d' :: IsRun(env, listed, pops, s) ==> !Dilemma(env, s, d, d')
  }

  /** `d` may be popped and would install its package. */
  ghost predicate Ready(env: Env, s: ScanState, d: Dep) {
    MayPop(s, d) && d in s.seen && d.cp !in s.installs && WantsAny(env, d, s.seen[d])
  }

  /** All that `s` has seen, `m` has seen, as mandatory where `s` has. */
  ghost predicate Covers(m: ScanState, s: ScanState) {
    forall d :: d in s.seen ==> d in m.seen && (m.seen[d] ==> s.seen[d])
  }

  lemma SteadyFlags(env: Env, listed: set<Dep>, d: Dep, before: bool, after: bool)
    requires Steady(env, listed) && d in Universe(env, listed) && (after ==> before) && WantsAny(env, d, before)
    ensures SameSlots(env, d, before, d, after) && WantsAny(env, d, after)
  {
    if before && !after {
      assert SameSlots(env, d, true, d, false);
      var i :| 0 <= i < |RowsIn(env.binpkgs, d.cp)| && Wants(env, d, i, true);
      assert Wants(env, d, i, false);
    }
  }

  /** A pop adds nothing to what is covered if all slots it wants have been followed. */
  lemma StepCovered(env: Env, s: ScanState, d: Dep, m: ScanState)
    requires d in s.seen && Covers(m, s)
    requires d.cp !in s.installs ==>
      forall i :: 0 <= i < |RowsIn(env.binpkgs, d.cp)| && Wants(env, d, i, s.seen[d]) ==> Followed(env, m, d.cp, i)
    ensures Covers(m, Step(env, s, d))
  {
    if d.cp !in s.installs {
      var cps := s.installs.Keys + {d.cp};
      StepIsScanning(env, s, d);
      ScanInside(env, Deq(s, d), d, 0, s.listed != {}, s.seen[d], MustOf(m), m.seen.Keys, cps);
    }
  }

  /** If all requests so far were settled alike, what `d` wants has been followed where its package is installed. */
  lemma FollowedAlike(env: Env, m: ScanState, d: Dep, optional: bool, d': Dep, optional': bool)
    requires d.cp == d'.cp && SameSlots(env, d, optional, d', optional') && InstalledBy(env, m, d', optional', 0)
    ensures forall i :: 0 <= i < |RowsIn(env.binpkgs, d.cp)| && Wants(env, d, i, optional) ==> Followed(env, m, d.cp, i)
  {
  }

  /**
    Whenever, in any two runs, a dependency is about to install a package, the
    two want the same slots: otherwise some run would come to a choice.
   */
  lemma {:induction false} SameChoice(env: Env, listed: set<Dep>, pops: seq<Dep>, s: ScanState, d: Dep,
                                      pops': seq<Dep>, s': ScanState, d': Dep)
    requires Steady(env, listed) && NoChoice(env, listed)
    requires IsRun(env, listed, pops, s) && IsRun(env, listed, pops', s')
    requires Ready(env, s, d) && Ready(env, s', d') && d.cp == d'.cp
    ensures SameSlots(env, d, s.seen[d], d', s'.seen[d'])
    decreases |pops|, 1
  {
    PoppedListed(env, listed, pops, s, d);
    PoppedListed(env, listed, pops', s', d');
    if d in listed && d' in listed {
      assert IsRun(env, listed, [], Start(listed));
      assert !Dilemma(env, Start(listed), d, d');
    } else if d !in listed && d' !in listed {
      var all, m := Replay(env, listed, pops, s, d.cp, pops', s', d');
      SeenInUniverse(env, listed, pops, s);
      SeenInUniverse(env, listed, pops', s');
      Meeting(env, listed, all, m, d, s.seen[d], d', s'.seen[d']);
    } else if d in listed {
      ListedComesFirst(env, listed, pops', s', d);
    } else {
      ListedComesFirst(env, listed, pops, s, d');
    }
  }

  /** What is popped is listed exactly while listed dependencies are left, and listed ones are mandatory. */
  lemma PoppedListed(env: Env, listed: set<Dep>, pops: seq<Dep>, s: ScanState, d: Dep)
    requires IsRun(env, listed, pops, s) && MayPop(s, d) && d in s.seen
    ensures d in listed <==> s.listed != {}
    ensures d in listed ==> !s.seen[d]
  {
    RunKeepsInv(env, listed, pops, s);
    StepListed(env, listed, pops, s, d);
  }

  /** At a moment at which both are seen and their package is not installed, both may be popped. */
  lemma Meeting(env: Env, listed: set<Dep>, pops: seq<Dep>, m: ScanState, d: Dep, optional: bool, d': Dep, optional': bool)
    requires Steady(env, listed) && NoChoice(env, listed) && d in Universe(env, listed) && d' in Universe(env, listed)
    requires IsRun(env, listed, pops, m) && m.listed == {} && d.cp == d'.cp && d.cp !in m.installs
    requires d in m.seen && (m.seen[d] ==> optional) && WantsAny(env, d, optional)
    requires d' in m.seen && (m.seen[d'] ==> optional') && WantsAny(env, d', optional')
    ensures SameSlots(env, d, optional, d', optional')
  {
    RunKeepsInv(env, listed, pops, m);
    SteadyFlags(env, listed, d, optional, m.seen[d]);
    SteadyFlags(env, listed, d', optional', m.seen[d']);
    assert !Dilemma(env, m, d, d');
  }

  /** Once unlisted dependencies are popped, a listed one that wants its package has got it. */
  lemma ListedComesFirst(env: Env, listed: set<Dep>, pops: seq<Dep>, s: ScanState, l: Dep)
    requires IsRun(env, listed, pops, s) && s.listed == {} && l in listed && WantsAny(env, l, false)
    ensures l.cp in s.installs
  {
    RunKeepsInv(env, listed, pops, s);
  }

  /**
    The pops of one run, continued from a moment of another run at which `x`
    is ready to install `cp`, which the first run has not installed: all that
    the first run has seen is seen, and `x` is still ready.
   */
  lemma {:induction false} Replay(env: Env, listed: set<Dep>, pops: seq<Dep>, s: ScanState, cp: CP,
                                  pops': seq<Dep>, s': ScanState, x: Dep)
    returns (all: seq<Dep>, m: ScanState)
    requires Steady(env, listed) && NoChoice(env, listed)
    requires IsRun(env, listed, pops, s) && cp !in s.installs
    requires IsRun(env, listed, pops', s') && s'.listed == {} && Ready(env, s', x) && x.cp == cp
    ensures IsRun(env, listed, all, m) && m.listed == {} && cp !in m.installs
    ensures x in m.queue && x in m.seen && (m.seen[x] ==> s'.seen[x])
    ensures Covers(m, s)
    decreases |pops|, 0
  {
    if pops == [] {
      all, m := pops', s';
      RunKeepsInv(env, listed, pops', s');
    } else {
      var t := RunLast(env, listed, pops, s);
      var init, p := pops[..|pops| - 1], pops[|pops| - 1];
      StepGrows(env, t, p);
      all, m := Replay(env, listed, init, t, cp, pops', s', x);
      if p.cp !in t.installs && WantsAny(env, p, t.seen[p]) {
        StepScans(env, t, p);
        all, m := ReplayOne(env, listed, init, t, p, all, m, x);
      }
      StepCovered(env, t, p, m);
    }
  }

  /** One more pop, unless its package is there already. */
  lemma {:induction false} ReplayOne(env: Env, listed: set<Dep>, pops: seq<Dep>, t: ScanState, p: Dep,
                                     before: seq<Dep>, m: ScanState, x: Dep)
    returns (all: seq<Dep>, m': ScanState)
    requires Steady(env, listed) && NoChoice(env, listed)
    requires IsRun(env, listed, pops, t) && Ready(env, t, p)
    requires IsRun(env, listed, before, m) && m.listed == {} && Covers(m, t)
    requires x.cp !in m.installs && x.cp != p.cp && x in m.queue && x in m.seen
    ensures IsRun(env, listed, all, m') && m'.listed == {} && x.cp !in m'.installs
    ensures x in m'.queue && x in m'.seen && (m'.seen[x] ==> m.seen[x])
    ensures Covers(m', t)
    ensures forall i :: 0 <= i < |RowsIn(env.binpkgs, p.cp)| && Wants(env, p, i, t.seen[p]) ==> Followed(env, m', p.cp, i)
    decreases |pops|, 2
  {
    RunKeepsInv(env, listed, before, m);
    SeenInUniverse(env, listed, pops, t);
    SteadyFlags(env, listed, p, t.seen[p], m.seen[p]);
    if p.cp in m.installs {
      all, m' := before, m;
      var k, v := FindInstaller(env, listed, before, m, p.cp);
      SameChoice(env, listed, pops, t, p, before[..k], v, before[k]);
      FollowedAlike(env, m, p, t.seen[p], before[k], v.seen[before[k]]);
    } else {
      all, m' := before + [p], Step(env, m, p);
      RunSnoc(env, listed, before, m, p);
      StepScans(env, m, p);
      FollowedAlike(env, m', p, t.seen[p], p, m.seen[p]);
    }
  }

  /** What any run sees, a complete one has seen. */
  lemma {:induction false} CompleteCovers(env: Env, listed: set<Dep>, pops: seq<Dep>, s: ScanState,
                                          pops': seq<Dep>, s': ScanState)
    requires Steady(env, listed) && NoChoice(env, listed)
    requires IsRun(env, listed, pops, s) && IsComplete(env, listed, pops', s')
    ensures Covers(s', s) && s.installs.Keys <= s'.installs.Keys
    decreases |pops|
  {
    RunKeepsInv(env, listed, pops', s');
    if pops != [] {
      var t := RunLast(env, listed, pops, s);
      var init, p := pops[..|pops| - 1], pops[|pops| - 1];
      CompleteCovers(env, listed, init, t, pops', s');
      if Ready(env, t, p) {
        CompleteFollows(env, listed, init, t, p, pops', s');
      }
      StepCovered(env, t, p, s');
      if p.cp !in t.installs {
        StepScans(env, t, p);
      }
    }
  }

  lemma CompleteFollows(env: Env, listed: set<Dep>, pops: seq<Dep>, s: ScanState, d: Dep, pops': seq<Dep>, s': ScanState)
    requires Steady(env, listed) && NoChoice(env, listed)
    requires IsRun(env, listed, pops, s) && Ready(env, s, d)
    requires IsComplete(env, listed, pops', s') && Covers(s', s)
    ensures d.cp in s'.installs
    ensures forall i :: 0 <= i < |RowsIn(env.binpkgs, d.cp)| && Wants(env, d, i, s.seen[d]) ==> Followed(env, s', d.cp, i)
  {
    RunKeepsInv(env, listed, pops', s');
    SeenInUniverse(env, listed, pops, s);
    SteadyFlags(env, listed, d, s.seen[d], s'.seen[d]);
    var k, t := FindInstaller(env, listed, pops', s', d.cp);
    SameChoice(env, listed, pops, s, d, pops'[..k], t, pops'[k]);
    FollowedAlike(env, s', d, s.seen[d], pops'[k], t.seen[pops'[k]]);
  }

  /** What two installs of a package have in common if they come from requests for the same slots. */
  lemma SameRow(env: Env, s: ScanState, d: Dep, optional: bool, s': ScanState, d': Dep, optional': bool)
    requires d.cp == d'.cp && SameSlots(env, d, optional, d', optional')
    requires InstalledBy(env, s, d, optional, 0) && InstalledBy(env, s', d', optional', 0)
    ensures d.cp in s.installs && d.cp in s'.installs
    ensures s.installs[d.cp] == s'.installs[d.cp].(listed := s.installs[d.cp].listed)
  {
    var i :| 0 <= i < |RowsIn(env.binpkgs, d.cp)| && LastWanted(env, d, optional, i) && FromRow(env, s, d.cp, i);
    var j :| 0 <= j < |RowsIn(env.binpkgs, d'.cp)| && LastWanted(env, d', optional', j) && FromRow(env, s', d'.cp, j);
    assert Wants(env, d, j, optional) && Wants(env, d', i, optional');
  }

  /** Complete runs mark the same packages as listed. */
  lemma SameMark(env: Env, listed: set<Dep>, pops: seq<Dep>, s: ScanState, pops': seq<Dep>, s': ScanState, cp: CP)
    requires IsComplete(env, listed, pops, s) && IsComplete(env, listed, pops', s')
    requires cp in s.installs && cp in s'.installs
    ensures s.installs[cp].listed == s'.installs[cp].listed
  {
    RunKeepsInv(env, listed, pops, s);
    RunKeepsInv(env, listed, pops', s');
    RunListedRight(env, listed, pops, s);
    RunListedRight(env, listed, pops', s');
  }

  lemma SameInstall(env: Env, listed: set<Dep>, pops: seq<Dep>, s: ScanState, pops': seq<Dep>, s': ScanState, cp: CP)
    requires Steady(env, listed) && NoChoice(env, listed)
    requires IsComplete(env, listed, pops, s) && IsComplete(env, listed, pops', s')
    requires cp in s.installs
    ensures cp in s'.installs && s'.installs[cp] == s.installs[cp]
  {
    CompleteCovers(env, listed, pops, s, pops', s');
    var k, t := FindInstaller(env, listed, pops, s, cp);
    var k', t' := FindInstaller(env, listed, pops', s', cp);
    SameChoice(env, listed, pops[..k], t, pops[k], pops'[..k'], t', pops'[k']);
    SameRow(env, s, pops[k], t.seen[pops[k]], s', pops'[k'], t'.seen[pops'[k']]);
    SameMark(env, listed, pops, s, pops', s', cp);
  }

  lemma SameWarning(env: Env, listed: set<Dep>, pops: seq<Dep>, s: ScanState, pops': seq<Dep>, s': ScanState)
    requires Steady(env, listed) && NoChoice(env, listed)
    requires IsComplete(env, listed, pops, s) && IsComplete(env, listed, pops', s') && s.warned
    ensures s'.warned
  {
    CompleteCovers(env, listed, pops, s, pops', s');
    var k, t, i := FindWarner(env, listed, pops, s);
    var d := pops[k];
    var k', t' := FindInstaller(env, listed, pops', s', d.cp);
    var d' := pops'[k'];
    SameChoice(env, listed, pops[..k], t, d, pops'[..k'], t', d');
    assert Wants(env, d', i, t'.seen[d']);
    assert WarnsAt(env, d', i, t'.seen[d']);
  }

  /**
    If no run ever comes to a choice, every order of pops ends with the same
    installs and the same warning.  Packages may have any number of slots.
   */
  lemma OrderDoesNotMatter(env: Env, listed: set<Dep>, pops: seq<Dep>, s: ScanState, pops': seq<Dep>, s': ScanState)
    requires Steady(env, listed) && NoChoice(env, listed)
    requires IsComplete(env, listed, pops, s) && IsComplete(env, listed, pops', s')
    ensures s.installs == s'.installs && s.warned == s'.warned
  {
    forall cp | cp in s.installs ensures cp in s'.installs && s'.installs[cp] == s.installs[cp] {
      SameInstall(env, listed, pops, s, pops', s', cp);
    }
    forall cp | cp in s'.installs ensures cp in s.installs {
      SameInstall(env, listed, pops', s', pops, s, cp);
    }
    if s.warned {
      SameWarning(env, listed, pops, s, pops', s');
    } else if s'.warned {
      SameWarning(env, listed, pops', s', pops, s);
    }
  }

  // ------------------------------------------------------------- conditions to check before a run

  /** Where all requests there can be agree, no run comes to a choice. */
  lemma AgreeingMakesNoChoice(env: Env, listed: set<Dep>)
    requires Agreeing(env, listed)
    ensures Steady(env, listed) && NoChoice(env, listed)
  {
    forall d | d in Universe(env, listed) && WantsAny(env, d, true) ensures SameSlots(env, d, true, d, false) {
      OptionalWantsLess(env, d);
      var i :| 0 <= i < |RowsIn(env.binpkgs, d.cp)| && Wants(env, d, i, true);
      assert WantsAny(env, d, false);
    }
    forall pops, s, d, d' | IsRun(env, listed, pops, s) ensures !Dilemma(env, s, d, d') {
      SeenInUniverse(env, listed, pops, s);
    }
  }

  /** Requests that want different slots of a package also pick different ones in the end. */
  ghost predicate LastDecides(env: Env, listed: set<Dep>) {
    forall d, optional, d', optional' ::
      d in Universe(env, listed) && d' in Universe(env, listed) && d.cp == d'.cp
        && WantsAny(env, d, optional) && WantsAny(env, d', optional')
        && !SameSlots(env, d, optional, d', optional')
      ==> Clash(env, d, optional, d', optional')
  }

  /**
    The order shows if and only if some run comes to a choice, provided that
    requests are steady and their last slot tells them apart.
   */
  lemma OrderShowsExactlyWhen(env: Env, listed: set<Dep>)
    requires Steady(env, listed) && LastDecides(env, listed)
    ensures OrderShows(env, listed) <==> !NoChoice(env, listed)
  {
    if !NoChoice(env, listed) {
      var pops, s, d, d' :| IsRun(env, listed, pops, s) && Dilemma(env, s, d, d');
      SeenInUniverse(env, listed, pops, s);
      ClashShows(env, listed, pops, s, d, d');
    } else if OrderShows(env, listed) {
      var pops, s, pops', s' :|
        IsComplete(env, listed, pops, s) && IsComplete(env, listed, pops', s') && s.installs != s'.installs;
      OrderDoesNotMatter(env, listed, pops, s, pops', s');
    }
  }

  /** No request there can be wants more than one slot, and no two slots of a package hold the same. */
  ghost predicate OneSlotEach(env: Env, listed: set<Dep>) {
    && (forall d, i, j :: d in Universe(env, listed) && 0 <= i < j < |RowsIn(env.binpkgs, d.cp)| ==>
          !(Wants(env, d, i, false) && Wants(env, d, j, false)))
    && forall cp, i, j :: cp in env.binpkgs && 0 <= i < j < |env.binpkgs[cp]| ==>
         env.binpkgs[cp][i].info.cpv != env.binpkgs[cp][j].info.cpv || env.binpkgs[cp][i].slot != env.binpkgs[cp][j].slot
  }

  lemma OnlySlotPicked(env: Env, listed: set<Dep>, d: Dep, optional: bool, i: nat)
    requires OneSlotEach(env, listed) && d in Universe(env, listed)
    requires i < |RowsIn(env.binpkgs, d.cp)| && Wants(env, d, i, optional)
    ensures Picks(env, d, optional, RowsIn(env.binpkgs, d.cp)[i])
    ensures forall j :: 0 <= j < |RowsIn(env.binpkgs, d.cp)| && Wants(env, d, j, optional) ==> j == i
  {
    OptionalWantsLess(env, d);
    assert LastWanted(env, d, optional, i);
  }

  lemma DifferentSlotsClash(env: Env, listed: set<Dep>, d: Dep, optional: bool, d': Dep, optional': bool)
    requires OneSlotEach(env, listed) && d in Universe(env, listed) && d' in Universe(env, listed) && d.cp == d'.cp
    requires WantsAny(env, d, optional) && WantsAny(env, d', optional') && !SameSlots(env, d, optional, d', optional')
    ensures Clash(env, d, optional, d', optional')
  {
    var i :| 0 <= i < |RowsIn(env.binpkgs, d.cp)| && Wants(env, d, i, optional);
    var j :| 0 <= j < |RowsIn(env.binpkgs, d'.cp)| && Wants(env, d', j, optional');
    OnlySlotPicked(env, listed, d, optional, i);
    OnlySlotPicked(env, listed, d', optional', j);
    assert i != j;
  }

  /** Both provisos hold in particular when every request wants at most one slot. */
  lemma OneSlotEachDecides(env: Env, listed: set<Dep>)
    requires OneSlotEach(env, listed)
    ensures Steady(env, listed) && LastDecides(env, listed)
  {
    forall d | d in Universe(env, listed) && WantsAny(env, d, true) ensures SameSlots(env, d, true, d, false) {
      OptionalWantsLess(env, d);
      var i :| 0 <= i < |RowsIn(env.binpkgs, d.cp)| && Wants(env, d, i, true);
      OnlySlotPicked(env, listed, d, false, i);
    }
    forall d, optional, d', optional' |
      d in Universe(env, listed) && d' in Universe(env, listed) && d.cp == d'.cp
        && WantsAny(env, d, optional) && WantsAny(env, d', optional')
        && !SameSlots(env, d, optional, d', optional')
      ensures Clash(env, d, optional, d', optional')
    {
      DifferentSlotsClash(env, listed, d, optional, d', optional');
    }
  }

  // ------------------------------------------------------------- when dependencies are not followed

  /** Two listed dependencies of one package pick different slots. */
  ghost predicate ListedClash(env: Env, listed: set<Dep>) {
    exists d, d' :: d in listed && d' in listed && d.cp == d'.cp && Clash(env, d, false, d', false)
  }

  /** Without following dependencies only listed ones are ever seen. */
  lemma SeesOnlyListed(env: Env, listed: set<Dep>, pops: seq<Dep>, s: ScanState)
    requires !env.rdeps && !env.revRdeps && IsRun(env, listed, pops, s)
    ensures forall d :: d in s.seen ==> d in listed && !s.seen[d]
  {
    var cps := set d | d in listed :: d.cp;
    RunInside(env, listed, pops, s, listed, {}, cps);
  }

  lemma InstallerPicks(env: Env, listed: set<Dep>, pops: seq<Dep>, s: ScanState, k: nat, t: ScanState) returns (e: Entry)
    requires !env.rdeps && !env.revRdeps && Installer(env, listed, pops, s, k, t)
    ensures pops[k] in listed && WantsAny(env, pops[k], false) && Picks(env, pops[k], false, e)
    ensures var i := s.installs[pops[k].cp];
      && i.cpv == e.info.cpv && i.slot == e.slot
      && (i.update <==> Comparing(env) && InTarget(env, pops[k].cp, e.slot).Some?)
  {
    SeesOnlyListed(env, listed, pops[..k], t);
    var d := pops[k];
    var i :| 0 <= i < |RowsIn(env.binpkgs, d.cp)| && LastWanted(env, d, false, i) && FromRow(env, s, d.cp, i);
    e := RowsIn(env.binpkgs, d.cp)[i];
  }

  lemma SameWithoutClash(env: Env, listed: set<Dep>, pops: seq<Dep>, s: ScanState, pops': seq<Dep>, s': ScanState, cp: CP)
    requires !env.rdeps && !env.revRdeps && !ListedClash(env, listed) && cp in s.installs
    requires IsComplete(env, listed, pops, s) && IsComplete(env, listed, pops', s')
    ensures cp in s'.installs && s'.installs[cp] == s.installs[cp]
  {
    var k, t := FindInstaller(env, listed, pops, s, cp);
    var e := InstallerPicks(env, listed, pops, s, k, t);
    RunKeepsInv(env, listed, pops', s');
    var k', t' := FindInstaller(env, listed, pops', s', cp);
    var e' := InstallerPicks(env, listed, pops', s', k', t');
    assert !Clash(env, pops[k], false, pops'[k'], false);
    SameMark(env, listed, pops, s, pops', s', cp);
  }

  /** When dependencies are not followed, the order shows if and only if two listed ones clash. */
  lemma ListedOrderShowsExactlyWhen(env: Env, listed: set<Dep>)
    requires !env.rdeps && !env.revRdeps
    ensures OrderShows(env, listed) <==> ListedClash(env, listed)
  {
    if ListedClash(env, listed) {
      var d, d' :| d in listed && d' in listed && d.cp == d'.cp && Clash(env, d, false, d', false);
      ListedClashShows(env, listed, d, d');
    } else if OrderShows(env, listed) {
      var pops, s, pops', s' :|
        IsComplete(env, listed, pops, s) && IsComplete(env, listed, pops', s') && s.installs != s'.installs;
      forall cp ensures cp in s.installs <==> cp in s'.installs {
        if cp in s.installs {
          SameWithoutClash(env, listed, pops, s, pops', s', cp);
        } else if cp in s'.installs {
          SameWithoutClash(env, listed, pops', s', pops, s, cp);
        }
      }
      forall cp | cp in s.installs ensures s'.installs[cp] == s.installs[cp] {
        SameWithoutClash(env, listed, pops, s, pops', s', cp);
      }
    }
  }

  // ------------------------------------------------------------- an instance: two slots of one package

  const P: CP := "a/p"

  function SlotRow(slot: Slot): Entry {
    Entry(slot, PkgInfo(CPV(P, slot), "", "", Some([]), {}, {}))
  }

  const TwoSlots: Env := Env(map[P := [SlotRow("0"), SlotRow("1")]], None, false, false)

  function Ask(slot: Slot): Dep { Dep(P, Some(slot)) }

  lemma AskFor(s: ScanState, slot: Slot)
    requires slot == "0" || slot == "1"
    requires Ask(slot) in s.seen && P !in s.installs
    ensures Step(TwoSlots, s, Ask(slot)).installs
         == s.installs[P := Install(CPV(P, slot), slot, s.listed != {}, false)]
    ensures Step(TwoSlots, s, Ask(slot)).seen == s.seen
    ensures Step(TwoSlots, s, Ask(slot)).queue == s.queue - {Ask(slot)}
    ensures Step(TwoSlots, s, Ask(slot)).listed == s.listed - {Ask(slot)}
  {
    var es := TwoSlots.binpkgs[P];
    var t := Deq(s, Ask(slot));
    assert es[1..] == [SlotRow("1")] && es[1..][1..] == [];
    assert Base("0") == "0" && Base("1") == "1" by {
      assert "0"[1..] == "" && "1"[1..] == "";
    }
    assert '/' !in "0" && '/' !in "1";
    assert "0" != "1" by { assert "0"[0] != "1"[0]; }
    var first := Verdict(true, false, false);
    var s1 := if slot == "0" then Record(TwoSlots, t, P, es[0], s.listed != {}, first) else t;
    assert Scan(TwoSlots, t, P, slot, es, s.listed != {}, s.seen[Ask(slot)])
        == Scan(TwoSlots, s1, P, slot, es[1..], s.listed != {}, s.seen[Ask(slot)]);
    var s2 := if slot == "1" then Record(TwoSlots, s1, P, es[1], s.listed != {}, first) else s1;
    assert Scan(TwoSlots, s1, P, slot, es[1..], s.listed != {}, s.seen[Ask(slot)])
        == Scan(TwoSlots, s2, P, slot, [], s.listed != {}, s.seen[Ask(slot)]) == s2;
  }

  /** When two slots of one package are asked for, whichever is popped first is the only one installed. */
  lemma OrderMattersWithTwoSlots(first: Slot, second: Slot) returns (s: ScanState)
    requires (first == "0" && second == "1") || (first == "1" && second == "0")
    ensures IsRun(TwoSlots, {Ask("0"), Ask("1")}, [Ask(first), Ask(second)], s)
    ensures s.queue == {} && s.installs == map[P := Install(CPV(P, first), first, true, false)]
  {
    var listed := {Ask("0"), Ask("1")};
    assert "0" != "1" by { assert "0"[0] != "1"[0]; }
    var s0 := Start(listed);
    AskFor(s0, first);
    var s1 := Step(TwoSlots, s0, Ask(first));
    RunSnoc(TwoSlots, listed, [], s0, Ask(first));
    assert [] + [Ask(first)] == [Ask(first)];
    RunSnoc(TwoSlots, listed, [Ask(first)], s1, Ask(second));
    assert [Ask(first)] + [Ask(second)] == [Ask(first), Ask(second)];
    s := Step(TwoSlots, s1, Ask(second));
  }
}
