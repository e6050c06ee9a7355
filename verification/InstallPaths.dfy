/**
  Whether some run comes to a choice, read off the databases and the list: it
  does exactly when two listed dependencies want different slots of a package,
  or two paths of installs, none of which passes through one package twice,
  end at requests for different slots of one package.
 */
module InstallPaths {
  import opened Basics
  import opened DependencyTrees
  import opened PackageDb
  import opened InstallRuns
  import opened InstallTheorems
  import opened InstallOrder

  type Ask = (Dep, bool)

  // ------------------------------------------------------------- paths of installs

  /** A slot that `d` wants brings in the request `x`, with its flag. */
  ghost predicate Brings(env: Env, d: Dep, optional: bool, x: Dep, flag: bool) {
    exists i :: BringsAt(env, d, optional, i, x, flag)
  }

  ghost predicate BringsAt(env: Env, d: Dep, optional: bool, i: int, x: Dep, flag: bool) {
    && 0 <= i < |RowsIn(env.binpkgs, d.cp)| && Wants(env, d, i, optional)
    && var e := RowsIn(env.binpkgs, d.cp)[i];
       if flag then x in Dependents(env, d.cp, e.slot) else env.rdeps && x in e.info.rdeps
  }

  /** A listed dependency asks for the package, which is therefore installed before any path begins. */
  ghost predicate TakenByList(env: Env, listed: set<Dep>, cp: CP) {
    exists l :: l in listed && l.cp == cp && WantsAny(env, l, false)
  }

  ghost predicate OnPath(path: seq<Ask>, cp: CP) {
    exists k :: 0 <= k < |path| && path[k].0.cp == cp
  }

  /**
    Installing for each request of `path` in turn brings in `x`: the first
    comes from a listed dependency, each other one from the one before, and
    no package is taken by the list or met twice.
   */
  ghost predicate Path(env: Env, listed: set<Dep>, path: seq<Ask>, x: Dep, flag: bool)
    decreases |path|
  {
    if path == [] then exists l :: l in listed && Brings(env, l, false, x, flag)
    else
      var (d, optional) := path[|path| - 1];
      && Brings(env, d, optional, x, flag)
      && Path(env, listed, path[..|path| - 1], d, optional)
      && !TakenByList(env, listed, d.cp) && !OnPath(path[..|path| - 1], d.cp)
  }

  /** A path ends at a request that would install a package not yet installed. */
  ghost predicate EndsAt(env: Env, listed: set<Dep>, path: seq<Ask>, d: Dep, optional: bool) {
    && Path(env, listed, path, d, optional) && WantsAny(env, d, optional)
    && !TakenByList(env, listed, d.cp) && !OnPath(path, d.cp)
  }

  ghost predicate PathsDiffer(env: Env, listed: set<Dep>) {
    exists path, d, optional, path', d', optional' ::
      && EndsAt(env, listed, path, d, optional) && EndsAt(env, listed, path', d', optional')
      && d.cp == d'.cp && !SameSlots(env, d, optional, d', optional')
  }

  ghost predicate ListDiffers(env: Env, listed: set<Dep>) {
    exists d, d' :: d in listed && d' in listed && d.cp == d'.cp
      && WantsAny(env, d, false) && WantsAny(env, d', false) && !SameSlots(env, d, false, d', false)
  }

  // ------------------------------------------------------------- every run follows paths

  /** A path over installed packages brought in `d`. */
  ghost predicate Led(env: Env, listed: set<Dep>, s: ScanState, d: Dep) {
    d in s.seen && exists path :: LedBy(env, listed, s, d, path)
  }

  ghost predicate LedBy(env: Env, listed: set<Dep>, s: ScanState, d: Dep, path: seq<Ask>) {
    && d in s.seen && Path(env, listed, path, d, s.seen[d])
    && forall k :: 0 <= k < |path| ==> path[k].0.cp in s.installs
  }

  /** What a pop adds to the seen dependencies is brought in by its slots. */
  lemma StepBrings(env: Env, s: ScanState, d: Dep, x: Dep)
    requires d in s.seen && x in Step(env, s, d).seen
    ensures var flag := Step(env, s, d).seen[x];
            (x in s.seen && s.seen[x] == flag) || (d.cp !in s.installs && Brings(env, d, s.seen[d], x, flag))
  {
    if d.cp !in s.installs {
      var must := set y | y in s.seen && !s.seen[y];
      var may := set y | y in s.seen && s.seen[y];
      var es := RowsIn(env.binpkgs, d.cp);
      var must' := set i, y | 0 <= i < |es| && y in es[i].info.rdeps && BringsAt(env, d, s.seen[d], i, y, false) :: y;
      var may' := set i, y | 0 <= i < |es| && y in Dependents(env, d.cp, es[i].slot) && BringsAt(env, d, s.seen[d], i, y, true) :: y;
      StepIsScanning(env, s, d);
      ScanInside(env, Deq(s, d), d, 0, s.listed != {}, s.seen[d], must + must', may + may', s.installs.Keys + {d.cp});
    }
  }

  lemma BringsWants(env: Env, d: Dep, optional: bool, x: Dep, flag: bool)
    requires Brings(env, d, optional, x, flag)
    ensures WantsAny(env, d, optional)
  {
  }

  /** Later pops do not change what led to a request whose flag they leave alone. */
  lemma LedStays(env: Env, listed: set<Dep>, s: ScanState, t: ScanState, d: Dep)
    requires Led(env, listed, s, d) && d in t.seen && t.seen[d] == s.seen[d] && s.installs.Keys <= t.installs.Keys
    ensures Led(env, listed, t, d)
  {
    var path :| LedBy(env, listed, s, d, path);
    assert LedBy(env, listed, t, d, path);
  }

  /** The list has not taken the package of an unlisted dependency that is ready. */
  lemma ReadyIsNotTaken(env: Env, listed: set<Dep>, pops: seq<Dep>, s: ScanState, d: Dep)
    requires IsRun(env, listed, pops, s) && Ready(env, s, d) && d !in listed
    ensures !TakenByList(env, listed, d.cp)
  {
    PoppedListed(env, listed, pops, s, d);
    if l :| l in listed && l.cp == d.cp && WantsAny(env, l, false) {
      ListedComesFirst(env, listed, pops, s, l);
    }
  }

  lemma LongerLed(env: Env, listed: set<Dep>, s: ScanState, t: ScanState, d: Dep, x: Dep)
    requires Led(env, listed, s, d) && d.cp !in s.installs && !TakenByList(env, listed, d.cp)
    requires s.installs.Keys + {d.cp} <= t.installs.Keys
    requires x in t.seen && Brings(env, d, s.seen[d], x, t.seen[x])
    ensures Led(env, listed, t, x)
  {
    var path :| LedBy(env, listed, s, d, path);
    var longer := path + [(d, s.seen[d])];
    assert longer[..|longer| - 1] == path && longer[|longer| - 1] == (d, s.seen[d]);
    assert LedBy(env, listed, t, x, longer);
  }

  /** A pop that installs its package leads to what that brings in. */
  lemma PopLeads(env: Env, listed: set<Dep>, pops: seq<Dep>, s: ScanState, d: Dep, x: Dep)
    requires IsRun(env, listed, pops, s) && Ready(env, s, d) && (d in listed || Led(env, listed, s, d))
    requires x in Step(env, s, d).seen && Brings(env, d, s.seen[d], x, Step(env, s, d).seen[x])
    ensures Led(env, listed, Step(env, s, d), x)
  {
    var t := Step(env, s, d);
    PoppedListed(env, listed, pops, s, d);
    PopTakes(env, s, d);
    if d in listed {
      assert LedBy(env, listed, t, x, []);
    } else {
      ReadyIsNotTaken(env, listed, pops, s, d);
      LongerLed(env, listed, s, t, d, x);
    }
  }

  lemma PopTakes(env: Env, s: ScanState, d: Dep)
    requires Ready(env, s, d)
    ensures s.installs.Keys + {d.cp} <= Step(env, s, d).installs.Keys
  {
    StepGrows(env, s, d);
    StepScans(env, s, d);
  }

  /** All that a run sees is listed or at the end of a path over what it has installed. */
  lemma {:induction false} AllLed(env: Env, listed: set<Dep>, pops: seq<Dep>, s: ScanState)
    requires IsRun(env, listed, pops, s)
    ensures forall d :: d in s.seen ==> d in listed || Led(env, listed, s, d)
    decreases |pops|
  {
    if pops != [] {
      var t := RunLast(env, listed, pops, s);
      var d := pops[|pops| - 1];
      AllLed(env, listed, pops[..|pops| - 1], t);
      StepGrows(env, t, d);
      forall x | x in s.seen && x !in listed ensures Led(env, listed, s, x) {
        StepBrings(env, t, d, x);
        if x in t.seen && t.seen[x] == s.seen[x] {
          LedStays(env, listed, t, s, x);
        } else {
          BringsWants(env, d, t.seen[d], x, s.seen[x]);
          PopLeads(env, listed, pops[..|pops| - 1], t, d, x);
        }
      }
    }
  }

  /** An unlisted request that is ready is at the end of a path. */
  lemma ReadyEndsPath(env: Env, listed: set<Dep>, pops: seq<Dep>, s: ScanState, d: Dep) returns (path: seq<Ask>)
    requires IsRun(env, listed, pops, s) && Ready(env, s, d) && d !in listed
    ensures EndsAt(env, listed, path, d, s.seen[d])
  {
    AllLed(env, listed, pops, s);
    path :| LedBy(env, listed, s, d, path);
    ReadyIsNotTaken(env, listed, pops, s, d);
  }

  // ------------------------------------------------------------- every path can be run

  /** Everything installed is taken by the list or on the path. */
  ghost predicate Within(env: Env, listed: set<Dep>, s: ScanState, path: seq<Ask>) {
    forall cp :: cp in s.installs ==> TakenByList(env, listed, cp) || OnPath(path, cp)
  }

  /** Pops all listed dependencies. */
  lemma {:induction false} FinishList(env: Env, listed: set<Dep>, pops: seq<Dep>, s: ScanState)
    returns (all: seq<Dep>, t: ScanState)
    requires IsRun(env, listed, pops, s) && Within(env, listed, s, []) && forall d :: d in pops ==> d in listed
    ensures IsRun(env, listed, all, t) && t.listed == {} && Within(env, listed, t, []) && forall d :: d in all ==> d in listed
    decreases |s.listed|
  {
    if s.listed == {} {
      all, t := pops, s;
    } else {
      RunKeepsInv(env, listed, pops, s);
      var d :| d in s.listed;
      RunSnoc(env, listed, pops, s, d);
      StepGrows(env, s, d);
      PoppedListed(env, listed, pops, s, d);
      var u := Step(env, s, d);
      forall cp | cp in u.installs ensures TakenByList(env, listed, cp) {
        if cp !in s.installs {
          StepInstallsOwn(env, s, d, cp);
        } else {
          assert !OnPath([], cp);
        }
      }
      assert u.listed == s.listed - {d};
      all, t := FinishList(env, listed, pops + [d], u);
    }
  }

  /** What a followed slot brings in has been seen, with at least that flag. */
  lemma FollowedBrings(env: Env, s: ScanState, d: Dep, optional: bool, x: Dep, flag: bool)
    requires Brings(env, d, optional, x, flag)
    requires forall i :: 0 <= i < |RowsIn(env.binpkgs, d.cp)| && Wants(env, d, i, optional) ==> Followed(env, s, d.cp, i)
    ensures x in s.seen && (s.seen[x] ==> flag)
  {
    var i :| BringsAt(env, d, optional, i, x, flag);
    assert Followed(env, s, d.cp, i);
  }

  /** After the list, the slots each listed dependency wants have been followed, if they do not differ. */
  lemma ListFollowed(env: Env, listed: set<Dep>, pops: seq<Dep>, s: ScanState, l: Dep)
    requires IsRun(env, listed, pops, s) && s.listed == {} && !ListDiffers(env, listed)
    requires (forall d :: d in pops ==> d in listed) && l in listed && WantsAny(env, l, false)
    ensures forall i :: 0 <= i < |RowsIn(env.binpkgs, l.cp)| && Wants(env, l, i, false) ==> Followed(env, s, l.cp, i)
  {
    ListedComesFirst(env, listed, pops, s, l);
    var k, t := FindInstaller(env, listed, pops, s, l.cp);
    var d := pops[k];
    PoppedListed(env, listed, pops[..k], t, d);
    assert d in pops;
    FollowedAlike(env, s, l, false, d, t.seen[d]);
  }

  /** A run that installs along a path sees its end, and has installed nothing but the list and the path. */
  lemma {:induction false} RunPath(env: Env, listed: set<Dep>, path: seq<Ask>, x: Dep, flag: bool)
    returns (pops: seq<Dep>, s: ScanState)
    requires Steady(env, listed) && !ListDiffers(env, listed) && Path(env, listed, path, x, flag)
    ensures IsRun(env, listed, pops, s) && s.listed == {} && Within(env, listed, s, path)
    ensures x in s.seen && (s.seen[x] ==> flag)
    decreases |path|
  {
    if path == [] {
      var l :| l in listed && Brings(env, l, false, x, flag);
      BringsWants(env, l, false, x, flag);
      pops, s := FinishList(env, listed, [], Start(listed));
      ListFollowed(env, listed, pops, s, l);
      FollowedBrings(env, s, l, false, x, flag);
    } else {
      var init := path[..|path| - 1];
      var (d, optional) := path[|path| - 1];
      var before, t := RunPath(env, listed, init, d, optional);
      BringsWants(env, d, optional, x, flag);
      SeenIsReady(env, listed, before, t, d, optional);
      pops, s := before + [d], Step(env, t, d);
      RunSnoc(env, listed, before, t, d);
      StepScans(env, t, d);
      FollowedAlike(env, s, d, optional, d, t.seen[d]);
      FollowedBrings(env, s, d, optional, x, flag);
      forall cp | cp in s.installs ensures TakenByList(env, listed, cp) || OnPath(path, cp) {
        LongerPath(init, path, cp);
        if cp !in t.installs {
          StepInstallsOwn(env, t, d, cp);
        }
      }
    }
  }

  lemma LongerPath(init: seq<Ask>, path: seq<Ask>, cp: CP)
    requires path != [] && init == path[..|path| - 1]
    ensures OnPath(path, cp) <==> OnPath(init, cp) || path[|path| - 1].0.cp == cp
  {
    if k :| 0 <= k < |init| && init[k].0.cp == cp {
      assert path[k].0.cp == cp;
    }
    assert path[|path| - 1].0.cp == cp ==> OnPath(path, cp);
    if k :| 0 <= k < |path| && path[k].0.cp == cp {
      assert k < |init| ==> init[k].0.cp == cp;
    }
  }

  /** After the list, a seen request that would install a package not yet installed is ready. */
  lemma SeenIsReady(env: Env, listed: set<Dep>, pops: seq<Dep>, s: ScanState, d: Dep, optional: bool)
    requires Steady(env, listed) && IsRun(env, listed, pops, s) && s.listed == {}
    requires d in s.seen && (s.seen[d] ==> optional) && WantsAny(env, d, optional) && d.cp !in s.installs
    ensures Ready(env, s, d) && SameSlots(env, d, optional, d, s.seen[d])
  {
    RunKeepsInv(env, listed, pops, s);
    SeenInUniverse(env, listed, pops, s);
    SteadyFlags(env, listed, d, optional, s.seen[d]);
  }

  /** A run at which the end of a path is ready. */
  lemma PathEndReady(env: Env, listed: set<Dep>, path: seq<Ask>, d: Dep, optional: bool)
    returns (pops: seq<Dep>, s: ScanState)
    requires Steady(env, listed) && !ListDiffers(env, listed) && EndsAt(env, listed, path, d, optional)
    ensures IsRun(env, listed, pops, s) && Ready(env, s, d) && SameSlots(env, d, optional, d, s.seen[d])
  {
    pops, s := RunPath(env, listed, path, d, optional);
    SeenIsReady(env, listed, pops, s, d, optional);
  }

  // ------------------------------------------------------------- the condition

  /** A choice at a moment of a run shows in the list or in two paths. */
  lemma ChoiceHasPaths(env: Env, listed: set<Dep>, pops: seq<Dep>, s: ScanState, d: Dep, d': Dep)
    requires IsRun(env, listed, pops, s) && Dilemma(env, s, d, d')
    ensures ListDiffers(env, listed) || PathsDiffer(env, listed)
  {
    PoppedListed(env, listed, pops, s, d);
    PoppedListed(env, listed, pops, s, d');
    if d !in listed {
      var path := ReadyEndsPath(env, listed, pops, s, d);
      var path' := ReadyEndsPath(env, listed, pops, s, d');
    }
  }

  lemma PathsMakeChoice(env: Env, listed: set<Dep>)
    requires Steady(env, listed) && (ListDiffers(env, listed) || PathsDiffer(env, listed))
    ensures !NoChoice(env, listed)
  {
    if ListDiffers(env, listed) {
      var d, d' :| d in listed && d' in listed && d.cp == d'.cp
        && WantsAny(env, d, false) && WantsAny(env, d', false) && !SameSlots(env, d, false, d', false);
      assert IsRun(env, listed, [], Start(listed)) && Dilemma(env, Start(listed), d, d');
    } else if NoChoice(env, listed) {
      var path, d, optional, path', d', optional' :|
        && EndsAt(env, listed, path, d, optional) && EndsAt(env, listed, path', d', optional')
        && d.cp == d'.cp && !SameSlots(env, d, optional, d', optional');
      var pops, s := PathEndReady(env, listed, path, d, optional);
      var pops', s' := PathEndReady(env, listed, path', d', optional');
      SameChoice(env, listed, pops, s, d, pops', s', d');
    }
  }

  /** Some run comes to a choice if and only if the list or two paths differ. */
  lemma ChoiceExactlyWhen(env: Env, listed: set<Dep>)
    requires Steady(env, listed)
    ensures !NoChoice(env, listed) <==> ListDiffers(env, listed) || PathsDiffer(env, listed)
  {
    if !NoChoice(env, listed) {
      var pops, s, d, d' :| IsRun(env, listed, pops, s) && Dilemma(env, s, d, d');
      ChoiceHasPaths(env, listed, pops, s, d, d');
    } else if ListDiffers(env, listed) || PathsDiffer(env, listed) {
      PathsMakeChoice(env, listed);
    }
  }

  /** The order of pops shows if and only if the list or two paths differ: a condition on databases and list alone. */
  lemma OrderShowsInPaths(env: Env, listed: set<Dep>)
    requires Steady(env, listed) && LastDecides(env, listed)
    ensures OrderShows(env, listed) <==> ListDiffers(env, listed) || PathsDiffer(env, listed)
  {
    ChoiceExactlyWhen(env, listed);
    OrderShowsExactlyWhen(env, listed);
  }
}
