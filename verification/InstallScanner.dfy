/** The scanner: the work queue it updates in place, and its whole computation. */
module InstallScannerClass {
  import opened Basics
  import opened DependencyTrees
  import opened PackageDb
  import opened InstallRuns
  import opened InstallTheorems
  import InstallMeaning
  import Sort = InstallSort

  /** A package given on the command line, or all installed ones. */
  datatype Request = AllInstalled | Named(dep: Dep)

  datatype RunError = BadOptions | Vartree(error: DbError) | Bintree(error: DbError) | NotAvailable(dep: Dep)

  /** How a result came about. */
  datatype Trace = Trace(asked: set<Dep>, pops: seq<Dep>, final: ScanState)

  /** What to install, which of it was named, and what the user should be told. */
  datatype Answer = Answer(sorted: seq<CPV>, listed: seq<CPV>, updates: nat, warned: bool)

  function ListedOf(installs: map<CP, Install>): set<CP> {
    set cp | cp in installs && installs[cp].listed
  }

  function Updates(installs: map<CP, Install>): set<CP> {
    set cp | cp in installs && installs[cp].update
  }

  function ListedVersions(installs: map<CP, Install>): set<CPV> {
    set cp | cp in ListedOf(installs) :: installs[cp].cpv
  }

  /** `named` holds the version of each listed install, once for each of them. */
  ghost predicate Names(installs: map<CP, Install>, named: seq<CPV>) {
    |named| == |ListedOf(installs)| && Elements(named) == ListedVersions(installs)
  }

  lemma OneMoreUpdate(was: map<CP, Install>, cp: CP, i: Install)
    requires cp !in was
    ensures |Updates(was[cp := i])| == |Updates(was)| + if i.update then 1 else 0
  {
    assert Updates(was[cp := i]) == Updates(was) + if i.update then {cp} else {};
  }

  lemma OneMoreListed(was: map<CP, Install>, cp: CP, i: Install)
    requires cp !in was
    ensures ListedOf(was[cp := i]) == ListedOf(was) + if i.listed then {cp} else {}
    ensures |ListedOf(was[cp := i])| == |ListedOf(was)| + if i.listed then 1 else 0
  {
    assert ListedOf(was[cp := i]) == ListedOf(was) + if i.listed then {cp} else {};
  }

  lemma OneMoreVersion(was: map<CP, Install>, cp: CP, i: Install)
    requires cp !in was
    ensures ListedVersions(was[cp := i]) == ListedVersions(was) + if i.listed then {i.cpv} else {}
  {
    var now := was[cp := i];
    forall v | v in ListedVersions(was) ensures v in ListedVersions(now) {
      var c :| c in ListedOf(was) && was[c].cpv == v;
      assert c in ListedOf(now) && now[c].cpv == v;
    }
    if i.listed {
      assert cp in ListedOf(now) && now[cp].cpv == i.cpv;
    }
  }

  lemma OneMoreName(was: map<CP, Install>, cp: CP, i: Install, named: seq<CPV>)
    requires cp !in was && Names(was, named)
    ensures Names(was[cp := i], named + if i.listed then [i.cpv] else [])
  {
    OneMoreListed(was, cp, i);
    OneMoreVersion(was, cp, i);
    if i.listed {
      ElementsSnoc(named, i.cpv);
    } else {
      assert named + [] == named;
    }
  }

  lemma ElementsSnoc(named: seq<CPV>, v: CPV)
    ensures Elements(named + [v]) == Elements(named) + {v}
  {
  }

  ghost predicate Summary(installs: map<CP, Install>, named: seq<CPV>, updates: nat) {
    Names(installs, named) && updates == |Updates(installs)|
  }

  lemma OneMoreInstall(was: map<CP, Install>, cp: CP, i: Install, named: seq<CPV>, updates: nat)
    requires cp !in was && Summary(was, named, updates)
    ensures Summary(was[cp := i], named + if i.listed then [i.cpv] else [], updates + if i.update then 1 else 0)
  {
    OneMoreName(was, cp, i, named);
    OneMoreUpdate(was, cp, i);
  }

  ghost predicate Part(done: map<CP, Install>, installs: map<CP, Install>, todo: set<CP>) {
    && todo + done.Keys == installs.Keys && todo !! done.Keys
    && forall cp :: cp in done ==> done[cp] == installs[cp]
  }

  lemma PartStep(done: map<CP, Install>, installs: map<CP, Install>, todo: set<CP>, cp: CP)
    requires Part(done, installs, todo) && cp in todo
    ensures cp in installs && cp !in done && Part(done[cp := installs[cp]], installs, todo - {cp})
  {
    assert cp in todo + done.Keys;
    assert todo - {cp} + (done.Keys + {cp}) == todo + done.Keys;
  }

  lemma NothingDone()
    ensures Summary(map[], [], 0)
  {
    assert ListedOf(map[]) == {} && ListedVersions(map[]) == {} && Updates(map[]) == {};
  }

  /** The installs that were named, and how many replace a package. */
  method Summarize(installs: map<CP, Install>) returns (named: seq<CPV>, updates: nat)
    ensures Summary(installs, named, updates)
  {
    named, updates := [], 0;
    var todo := installs.Keys;
    ghost var done: map<CP, Install> := map[];
    NothingDone();
    while todo != {}
      invariant Part(done, installs, todo) && Summary(done, named, updates)
    {
      var cp :| cp in todo;
      PartStep(done, installs, todo, cp);
      var i := installs[cp];
      OneMoreInstall(done, cp, i, named, updates);
      if i.listed {
        named := named + [i.cpv];
      } else {
        assert named + [] == named;
      }
      if i.update {
        updates := updates + 1;
      }
      todo, done := todo - {cp}, done[cp := i];
    }
    assert done == installs;
  }

  class InstallPackageScanner {
    var binpkgs: DB
    var target: Option<DB>
    var queue: set<Dep>
    var seen: map<Dep, bool>
    var listed: set<Dep>

    constructor ()
    {
      binpkgs, target := map[], None;
      queue, seen, listed := {}, map[], {};
    }

    /** The queue together with the installs computed so far. */
    function Scan(installs: map<CP, Install>, warned: bool): ScanState
      reads this
    {
      ScanState(queue, seen, listed, installs, warned)
    }

    function EnvFor(rdeps: bool, revRdeps: bool): Env
      reads this`target, this`binpkgs
    {
      Env(binpkgs, target, rdeps, revRdeps)
    }

    method InitDepQueue()
      modifies this`queue, this`seen, this`listed
      ensures Scan(map[], false) == Start({})
    {
      queue, seen, listed := {}, map[], {};
    }

    /** Enqueues a dependency if it is new or becomes mandatory; tells whether it did. */
    method EnqDep(d: Dep, list: bool, optional: bool) returns (added: bool)
      modifies this`queue, this`seen, this`listed
      ensures added == Upgrades(old(seen), d, optional)
      ensures Scan(map[], false) == Enq(old(Scan(map[], false)), d, list, optional)
    {
      if d in seen && (optional || !seen[d]) {
        return false;
      }
      queue := queue + {d};
      seen := seen[d := optional];
      if list {
        listed := listed + {d};
      }
      added := true;
    }

    /** Pops a dependency, a listed one if there is any. */
    method DeqDep() returns (d: Dep, wasListed: bool, optional: bool)
      requires queue != {} && listed <= queue <= seen.Keys
      modifies this`queue, this`listed
      ensures wasListed == (old(listed) != {}) && d in seen && optional == seen[d]
      ensures d in if wasListed then old(listed) else old(queue)
      ensures queue == old(queue) - {d} && listed == old(listed) - {d}
    {
      if listed != {} {
        d :| d in listed;
        listed := listed - {d};
        assert d in queue;
        queue := queue - {d};
        wasListed := true;
      } else {
        d :| d in queue;
        queue := queue - {d};
        wasListed := false;
      }
      optional := seen[d];
    }

    /** Enqueues a set of dependencies, in any order. */
    method ProcessDeps(deps: set<Dep>, reverse: bool)
      modifies this`queue, this`seen, this`listed
      ensures queue == old(queue) + News(old(seen), deps, reverse)
      ensures seen == old(seen) + Flagged(News(old(seen), deps, reverse), reverse)
      ensures listed == old(listed)
    {
      var todo := deps;
      ghost var done: set<Dep> := {};
      while todo != {}
        invariant done !! todo && done + todo == deps
        invariant queue == old(queue) + News(old(seen), done, reverse)
        invariant seen == old(seen) + Flagged(News(old(seen), done, reverse), reverse)
        invariant listed == old(listed)
      {
        var d :| d in todo;
        NewsSnoc(old(seen), done, d, reverse);
        var _ := EnqDep(d, false, reverse);
        todo, done := todo - {d}, done + {d};
      }
      assert done == deps;
    }

    /** One more dependency of a set that is enqueued one by one. */
    lemma NewsSnoc(was: map<Dep, bool>, done: set<Dep>, d: Dep, optional: bool)
      requires d !in done
      ensures var now := was + Flagged(News(was, done, optional), optional);
        && Upgrades(now, d, optional) == Upgrades(was, d, optional)
        && News(was, done + {d}, optional) == News(was, done, optional) + (if Upgrades(was, d, optional) then {d} else {})
        && was + Flagged(News(was, done + {d}, optional), optional)
             == (if Upgrades(was, d, optional) then now[d := optional] else now)
    {
    }

    /** Tells whether an install is needed and enqueues what follows from one slot. */
    method ScanSlot(d: Dep, e: Entry, wasListed: bool, optional: bool, rdeps: bool, revRdeps: bool,
                    installs: map<CP, Install>, warned: bool)
      returns (installs': map<CP, Install>, warned': bool)
      modifies this`queue, this`seen, this`listed
      ensures var env := old(EnvFor(rdeps, revRdeps));
        var v := NeedsInstall(env, d.cp, e, optional);
        Scan(installs', warned') ==
          if v.install then Record(env, old(Scan(installs, warned)), d.cp, e, wasListed, v)
          else old(Scan(installs, warned))
    {
      installs', warned' := installs, warned;
      var v := NeedsInstall(EnvFor(rdeps, revRdeps), d.cp, e, optional);
      if !v.install {
        return;
      }
      installs' := installs[d.cp := Install(e.info.cpv, e.slot, wasListed, v.update)];
      warned' := warned || v.useMismatch;
      if rdeps {
        ProcessDeps(e.info.rdeps, false);
      }
      ghost var s2 := Scan(installs', warned');
      if revRdeps {
        var t := InTarget(EnvFor(rdeps, revRdeps), d.cp, e.slot);
        if t.Some? {
          ProcessDeps(t.value.revRdeps, true);
        }
      }
      EnqNone(s2, true);
    }

    lemma EnqNone(s: ScanState, optional: bool)
      ensures EnqAll(s, {}, optional) == s
    {
      assert News(s.seen, {}, optional) == {};
      assert Flagged({}, optional) == map[];
      assert s.queue + {} == s.queue && s.seen + map[] == s.seen;
    }

    /** Handles one popped dependency: looks at every slot of its package in turn. */
    method Handle(d: Dep, wasListed: bool, optional: bool, rdeps: bool, revRdeps: bool,
                  installs: map<CP, Install>, warned: bool)
      returns (installs': map<CP, Install>, warned': bool)
      modifies this`queue, this`seen, this`listed
      ensures Scan(installs', warned')
           == Process(old(EnvFor(rdeps, revRdeps)), old(Scan(installs, warned)), d, wasListed, optional)
    {
      installs', warned' := installs, warned;
      if d.cp in installs {
        return;
      }
      ghost var env := EnvFor(rdeps, revRdeps);
      var es := RowsIn(binpkgs, d.cp);
      var required := Wanted(d);
      assert es[0..] == es;
      for i := 0 to |es|
        invariant InstallRuns.Scan(env, old(Scan(installs, warned)), d.cp, Wanted(d), es, wasListed, optional)
               == InstallRuns.Scan(env, Scan(installs', warned'), d.cp, required, es[i..], wasListed, optional)
      {
        assert es[i..][0] == es[i] && es[i..][1..] == es[i + 1..];
        if required != "" && '/' !in es[i].slot {
          required := Base(required);
        }
        if required != "" && es[i].slot != required {
          continue;
        }
        installs', warned' := ScanSlot(d, es[i], wasListed, optional, rdeps, revRdeps, installs', warned');
      }
      assert es[|es|..] == [];
    }

    /** A pop continues the run, and a run can only be so long. */
    lemma OnePop(env: Env, asked: set<Dep>, pops: seq<Dep>, s: ScanState, d: Dep)
      requires IsRun(env, asked, pops, s) && MayPop(s, d) && d in s.seen
      ensures IsRun(env, asked, pops + [d], Step(env, s, d))
      ensures |pops| + 1 <= 2 * |Universe(env, asked)|
    {
      RunSnoc(env, asked, pops, s, d);
      RunsAreBounded(env, asked, pops + [d], Step(env, s, d));
    }

    /**
      Works the queue until it is empty.  The pops form a run, whose length
      is bounded by the size of the databases.
     */
    method ComputeInstalls(rdeps: bool, revRdeps: bool)
      returns (installs: map<CP, Install>, warned: bool, ghost pops: seq<Dep>)
      requires Scan(map[], false) == Start(listed)
      modifies this`queue, this`seen, this`listed
      ensures IsRun(EnvFor(rdeps, revRdeps), old(listed), pops, Scan(installs, warned))
      ensures queue == {}
    {
      installs, warned, pops := map[], false, [];
      ghost var env, asked := EnvFor(rdeps, revRdeps), listed;
      while queue != {}
        invariant IsRun(env, asked, pops, Scan(installs, warned))
        decreases 2 * |Universe(env, asked)| - |pops|
      {
        ghost var s := Scan(installs, warned);
        PopsAreSafeAndFew(env, asked, pops, s);
        var d, wasListed, optional := DeqDep();
        assert Scan(installs, warned) == Deq(s, d) && MayPop(s, d);
        OnePop(env, asked, pops, s, d);
        installs, warned := Handle(d, wasListed, optional, rdeps, revRdeps, installs, warned);
        pops := pops + [d];
      }
    }

    /** Enqueues a package named by the user; it must be available. */
    method EnqListedPkg(d: Dep) returns (found: bool)
      modifies this`queue, this`seen, this`listed
      requires Scan(map[], false) == Start(listed)
      ensures found == (d.cp in binpkgs)
      ensures Scan(map[], false) == Start(if found then old(listed) + {d} else old(listed))
    {
      if d.cp !in binpkgs {
        return false;
      }
      var _ := EnqDep(d, true, false);
      found := true;
      StartGrows(old(listed), d);
    }

    lemma StartGrows(asked: set<Dep>, d: Dep)
      ensures Enq(Start(asked), d, true, false) == Start(asked + {d})
    {
      if d in asked {
        assert asked + {d} == asked;
      }
    }

    /** All available packages that are installed in the same slot. */
    function InstalledPkgs(): set<Dep>
      reads this`target, this`binpkgs
    {
      set cp, i | cp in binpkgs && 0 <= i < |binpkgs[cp]| && InTarget(EnvFor(false, false), cp, binpkgs[cp][i].slot).Some?
        :: Here(cp, binpkgs[cp][i])
    }

    method EnqInstalledPkgs()
      modifies this`queue, this`seen, this`listed
      requires Scan(map[], false) == Start(listed)
      ensures Scan(map[], false) == Start(old(listed) + InstalledPkgs())
    {
      var todo := InstalledPkgs();
      ghost var done: set<Dep> := {};
      assert old(listed) + done == old(listed);
      while todo != {}
        invariant todo + done == InstalledPkgs()
        invariant Scan(map[], false) == Start(old(listed) + done)
      {
        var d :| d in todo;
        StartGrows(old(listed) + done, d);
        var _ := EnqDep(d, true, false);
        assert old(listed) + done + {d} == old(listed) + (done + {d});
        todo, done := todo - {d}, done + {d};
      }
      assert done == InstalledPkgs();
    }

    /** The installs with the dependencies that decide their order. */
    function PlanOf(installs: map<CP, Install>): Sort.Plan
      reads this`binpkgs
    {
      map cp | cp in installs ::
        var e := SlotEntry(RowsIn(binpkgs, cp), installs[cp].slot);
        Sort.Job(installs[cp].cpv, if e.Some? then e.value.info.rdeps else {})
    }

    /** Package `a` is installed from this row, and the row depends on `b`. */
    ghost predicate DependsInRow(installs: map<CP, Install>, a: CP, b: CP, i: int, d: Dep)
      reads this`binpkgs
    {
      && a in installs && a in binpkgs && 0 <= i < |binpkgs[a]| && binpkgs[a][i].slot == installs[a].slot
      && (forall k :: 0 <= k < i ==> binpkgs[a][k].slot != installs[a].slot)
      && d in binpkgs[a][i].info.rdeps && d.cp == b
    }

    /** The order is that of the forward dependencies of the rows installed. */
    lemma PlanMeans(installs: map<CP, Install>, a: CP, b: CP)
      ensures PlanOf(installs).Keys == installs.Keys
      ensures a in installs ==> PlanOf(installs)[a].cpv == installs[a].cpv
      ensures Sort.Link(PlanOf(installs), a, b) <==> b in installs && exists i, d :: DependsInRow(installs, a, b, i, d)
    {
      if a in installs && a in binpkgs {
        var es, slot := binpkgs[a], installs[a].slot;
        InstallMeaning.SlotEntryMeans(es, slot);
        if SlotEntry(es, slot).Some? {
          var i :| 0 <= i < |es| && es[i] == SlotEntry(es, slot).value && es[i].slot == slot
            && forall k :: 0 <= k < i ==> es[k].slot != slot;
          forall d | d in es[i].info.rdeps && d.cp == b ensures DependsInRow(installs, a, b, i, d) {
          }
          forall j, d | DependsInRow(installs, a, b, j, d) ensures j == i {
          }
        }
      }
    }

    /** Exactly the available packages installed in the same slot, each asked for by that slot. */
    lemma InstalledPkgsMean(d: Dep)
      ensures d in InstalledPkgs() <==>
        && target.Some? && d.slot.Some?
        && (exists e :: d.cp in binpkgs && e in binpkgs[d.cp] && e.slot == d.slot.value)
        && (exists e :: d.cp in target.value && e in target.value[d.cp] && e.slot == d.slot.value)
    {
      if target.Some? && d.slot.Some? && d.cp in target.value {
        var es, slot := target.value[d.cp], d.slot.value;
        SlotEntryIn(es, slot);
        assert InTarget(EnvFor(false, false), d.cp, slot).Some? <==> exists e :: e in es && e.slot == slot;
        if d.cp in binpkgs {
          if e :| e in binpkgs[d.cp] && e.slot == slot {
            var i :| 0 <= i < |binpkgs[d.cp]| && binpkgs[d.cp][i] == e;
            assert Here(d.cp, binpkgs[d.cp][i]) == d;
          }
        }
      }
      if d in InstalledPkgs() {
        var cp, i :| cp in binpkgs && 0 <= i < |binpkgs[cp]| && d == Here(cp, binpkgs[cp][i])
          && InTarget(EnvFor(false, false), cp, binpkgs[cp][i].slot).Some?;
        var e := binpkgs[cp][i];
        assert e in binpkgs[d.cp] && e.slot == d.slot.value;
      }
    }

    lemma PlanIsDistinct(env: Env, s: ScanState)
      requires Keyed(binpkgs) && env.binpkgs == binpkgs && Sourced(env, s)
      ensures Sort.Distinct(PlanOf(s.installs))
      ensures forall cp :: cp in s.installs ==> SlotEntry(RowsIn(binpkgs, cp), s.installs[cp].slot).Some?
    {
      forall cp | cp in s.installs
        ensures s.installs[cp].cpv.cp == cp && SlotEntry(RowsIn(binpkgs, cp), s.installs[cp].slot).Some?
      {
        var i :| 0 <= i < |RowsIn(binpkgs, cp)| && FromRow(env, s, cp, i);
        SlotEntryIn(RowsIn(binpkgs, cp), s.installs[cp].slot);
        var e := RowsIn(binpkgs, cp)[i];
        assert e in RowsIn(binpkgs, cp);
      }
    }

    /** Both databases are those of their listings. */
    ghost predicate Loaded(targetInfos: seq<CpvInfo>, binpkgInfos: seq<CpvInfo>, update: bool, rdeps: bool, revRdeps: bool)
      reads this`target, this`binpkgs
    {
      && target.Some? == update
      && (update ==> Built(targetInfos, rdeps, None, target.value)
                     && if revRdeps then Inverted(target.value) else NoReverse(target.value))
      && Built(binpkgInfos, rdeps, target, binpkgs) && NoReverse(binpkgs) && Keyed(binpkgs)
    }

    ghost predicate Loadable(targetInfos: seq<CpvInfo>, binpkgInfos: seq<CpvInfo>, update: bool, rdeps: bool)
      reads this`target
    {
      (update ==> Buildable(targetInfos, rdeps, None)) && Buildable(binpkgInfos, rdeps, target)
    }

    /** Builds the database of installed packages, if wanted, and that of available ones. */
    method InitDBs(targetInfos: seq<CpvInfo>, binpkgInfos: seq<CpvInfo>, update: bool, rdeps: bool, revRdeps: bool)
      returns (error: Option<RunError>)
      requires target == None
      modifies this`target, this`binpkgs
      ensures error.None? <==> Loadable(targetInfos, binpkgInfos, update, rdeps)
      ensures error.None? ==> Loaded(targetInfos, binpkgInfos, update, rdeps, revRdeps)
      ensures error.Some? ==>
        if update && !Buildable(targetInfos, rdeps, None) then error.value.Vartree? else error.value.Bintree?
    {
      if update {
        var built := BuildDB(targetInfos, rdeps, revRdeps, None);
        if built.Err? {
          return Some(Vartree(built.error));
        }
        target := Some(built.value);
      }
      var built := BuildDB(binpkgInfos, rdeps, false, target);
      if built.Err? {
        return Some(Bintree(built.error));
      }
      binpkgs := built.value;
      error := None;
    }

    /** Everything named is available, and all installed packages are only asked for when they are known. */
    ghost predicate Available(requests: seq<Request>, update: bool)
      reads this`binpkgs
    {
      forall q :: q in requests ==> if q.AllInstalled? then update else q.dep.cp in binpkgs
    }

    /** Fills the queue with what was asked for. */
    method EnqRequests(requests: seq<Request>, update: bool) returns (error: Option<RunError>)
      modifies this`queue, this`seen, this`listed
      ensures error.None? ==> Scan(map[], false) == Start(listed) && forall d :: d in listed <==> Asked(requests, d)
      ensures error.None? <==> Available(requests, update)
    {
      InitDepQueue();
      for i := 0 to |requests|
        invariant Scan(map[], false) == Start(listed)
        invariant forall d :: d in listed <==> Asked(requests[..i], d)
        invariant Available(requests[..i], update)
      {
        var q := requests[i];
        assert q in requests;
        assert forall x :: x in requests[..i + 1] <==> x in requests[..i] || x == q;
        match q
        case AllInstalled =>
          if !update {
            return Some(BadOptions);
          }
          EnqInstalledPkgs();
        case Named(d) =>
          var found := EnqListedPkg(d);
          if !found {
            return Some(NotAvailable(d));
          }
      }
      assert requests[..|requests|] == requests;
      error := None;
    }

    /** Builds the databases and queues what was asked for. */
    method Prepare(targetInfos: seq<CpvInfo>, binpkgInfos: seq<CpvInfo>, requests: seq<Request>,
                   update: bool, rdeps: bool, revRdeps: bool)
      returns (error: Option<RunError>)
      requires target == None
      modifies this
      ensures error.None? <==> Loadable(targetInfos, binpkgInfos, update, rdeps) && Available(requests, update)
      ensures error.None? ==> Loaded(targetInfos, binpkgInfos, update, rdeps, revRdeps)
      ensures error.None? ==> Scan(map[], false) == Start(listed) && forall d :: d in listed <==> Asked(requests, d)
    {
      error := InitDBs(targetInfos, binpkgInfos, update, rdeps, revRdeps);
      if error.None? {
        error := EnqRequests(requests, update);
      }
    }

    /** Closes the queue over dependencies and sorts what has to be installed. */
    method Solve(rdeps: bool, revRdeps: bool) returns (a: Answer, ghost trace: Trace)
      requires Scan(map[], false) == Start(listed) && Keyed(binpkgs)
      modifies this`queue, this`seen, this`listed
      ensures trace.asked == old(listed)
      ensures Solved(EnvFor(rdeps, revRdeps), a, trace)
    {
      ghost var asked := listed;
      var installs, warned, pops := ComputeInstalls(rdeps, revRdeps);
      ghost var final := Scan(installs, warned);
      RunKeepsInv(EnvFor(rdeps, revRdeps), asked, pops, final);
      PlanIsDistinct(EnvFor(rdeps, revRdeps), final);
      var named, updates := Summarize(installs);
      var sorted := Sort.SortInstalls(PlanOf(installs));
      a, trace := Answer(sorted, named, updates, warned), Trace(asked, pops, final);
    }

    /** The answer is that of a finished run: its installs, each once, ordered by dependency. */
    ghost predicate Solved(env: Env, a: Answer, trace: Trace)
      reads this`binpkgs
    {
      var installs := trace.final.installs;
      && IsRun(env, trace.asked, trace.pops, trace.final) && trace.final.queue == {}
      && Sort.Sorted(PlanOf(installs), a.sorted)
      && Summary(installs, a.listed, a.updates) && a.warned == trace.final.warned
    }

    /**
      The whole computation: build both databases, queue what was asked for,
      close over dependencies, and sort.
     */
    method Run(targetInfos: seq<CpvInfo>, binpkgInfos: seq<CpvInfo>, requests: seq<Request>,
               update: bool, rdeps: bool, revRdeps: bool)
      returns (r: Result<Answer, RunError>, ghost trace: Trace)
      requires target == None
      modifies this
      ensures (revRdeps && !rdeps) || (rdeps && !update) ==> r == Err(BadOptions)
      ensures r.Ok? <==> (revRdeps ==> rdeps) && (rdeps ==> update)
                         && Loadable(targetInfos, binpkgInfos, update, rdeps) && Available(requests, update)
      ensures r.Ok? ==> Loaded(targetInfos, binpkgInfos, update, rdeps, revRdeps)
      ensures r.Ok? ==> Solved(EnvFor(rdeps, revRdeps), r.value, trace)
      ensures r.Ok? ==> forall d :: d in trace.asked <==> Asked(requests, d)
    {
      trace := Trace({}, [], Start({}));
      if (revRdeps && !rdeps) || (rdeps && !update) {
        return Err(BadOptions), trace;
      }
      var error := Prepare(targetInfos, binpkgInfos, requests, update, rdeps, revRdeps);
      if error.Some? {
        return Err(error.value), trace;
      }
      var a;
      a, trace := Solve(rdeps, revRdeps);
      r := Ok(a);
    }

    /** What the requests ask for. */
    ghost predicate Asked(requests: seq<Request>, d: Dep)
      reads this`target, this`binpkgs
    {
      Named(d) in requests || (AllInstalled in requests && d in InstalledPkgs())
    }
  }
}
