/**
  The work queue that computes which packages to install, as a state machine.
  Sets are popped in no particular order, so a run is any legal sequence of pops.
 */
module InstallRuns {
  import opened Basics
  import opened DependencyTrees
  import opened PackageDb

  /** The two databases and the directions in which dependencies are followed. */
  datatype Env = Env(binpkgs: DB, target: Option<DB>, rdeps: bool, revRdeps: bool)

  datatype Install = Install(cpv: CPV, slot: Slot, listed: bool, update: bool)

  /** `seen[d]` tells whether `d` is optional. */
  datatype ScanState = ScanState(
    queue: set<Dep>,
    seen: map<Dep, bool>,
    listed: set<Dep>,
    installs: map<CP, Install>,
    warned: bool)

  // ------------------------------------------------------------- the queue

  predicate Upgrades(seen: map<Dep, bool>, d: Dep, optional: bool) {
    d !in seen || (!optional && seen[d])
  }

  function Enq(s: ScanState, d: Dep, listed: bool, optional: bool): ScanState {
    if !Upgrades(s.seen, d, optional) then s
    else s.(queue := s.queue + {d}, seen := s.seen[d := optional],
            listed := if listed then s.listed + {d} else s.listed)
  }

  /** The members of `ds` that are new or become mandatory. */
  function News(seen: map<Dep, bool>, ds: set<Dep>, optional: bool): set<Dep> {
    set d | d in ds && Upgrades(seen, d, optional)
  }

  function Flagged(ds: set<Dep>, optional: bool): map<Dep, bool> {
    map d | d in ds :: optional
  }

  /** Enqueueing a set of unlisted dependencies; the order does not matter. */
  function EnqAll(s: ScanState, ds: set<Dep>, optional: bool): ScanState {
    var news := News(s.seen, ds, optional);
    s.(queue := s.queue + news, seen := s.seen + Flagged(news, optional))
  }

  predicate MayPop(s: ScanState, d: Dep) {
    if s.listed != {} then d in s.listed else d in s.queue
  }

  function Deq(s: ScanState, d: Dep): ScanState {
    s.(queue := s.queue - {d}, listed := s.listed - {d})
  }

  // ------------------------------------------------------------- one package

  function SlotEntry(es: seq<Entry>, slot: Slot): Option<Entry> {
    if es == [] then None
    else if es[0].slot == slot then Some(es[0])
    else SlotEntry(es[1..], slot)
  }

  function InTarget(env: Env, cp: CP, slot: Slot): Option<PkgInfo> {
    if env.target.None? || cp !in env.target.value then None
    else
      var e := SlotEntry(env.target.value[cp], slot);
      if e.Some? then Some(e.value.info) else None
  }

  /** Whether there is a non-empty database of installed packages to compare with. */
  predicate Comparing(env: Env) {
    env.target.Some? && env.target.value != map[]
  }

  datatype Verdict = Verdict(install: bool, update: bool, useMismatch: bool)

  function NeedsInstall(env: Env, cp: CP, e: Entry, optional: bool): Verdict {
    if !Comparing(env) then Verdict(true, false, false)
    else
      var t := InTarget(env, cp, e.slot);
      if t.Some? then
        if e.info.cpv.version != t.value.cpv.version || e.info.buildTime != t.value.buildTime then
          Verdict(true, true, e.info.use != t.value.use)
        else Verdict(false, false, false)
      else Verdict(!optional, false, false)
  }

  function Base(slot: Slot): Slot {
    if slot == "" || slot[0] == '/' then "" else [slot[0]] + Base(slot[1..])
  }

  /** A requested subslot is dropped at the first package slot that has none, and stays dropped. */
  function Narrow(required: Slot, slot: Slot): Slot {
    if required != "" && '/' !in slot then Base(required) else required
  }

  function Dependents(env: Env, cp: CP, slot: Slot): set<Dep> {
    if env.revRdeps && InTarget(env, cp, slot).Some? then InTarget(env, cp, slot).value.revRdeps else {}
  }

  function Record(env: Env, s: ScanState, cp: CP, e: Entry, listed: bool, v: Verdict): ScanState {
    var s1 := s.(installs := s.installs[cp := Install(e.info.cpv, e.slot, listed, v.update)],
                 warned := s.warned || v.useMismatch);
    var s2 := if env.rdeps then EnqAll(s1, e.info.rdeps, false) else s1;
    EnqAll(s2, Dependents(env, cp, e.slot), true)
  }

  /** Walks the slots of one package. */
  function Scan(env: Env, s: ScanState, cp: CP, required: Slot, es: seq<Entry>, listed: bool, optional: bool): ScanState
    decreases |es|
  {
    if es == [] then s
    else
      var req := Narrow(required, es[0].slot);
      var v := NeedsInstall(env, cp, es[0], optional);
      var s1 := if (req == "" || es[0].slot == req) && v.install then Record(env, s, cp, es[0], listed, v) else s;
      Scan(env, s1, cp, req, es[1..], listed, optional)
  }

  /** Handles a popped dependency. */
  function Process(env: Env, s: ScanState, d: Dep, listed: bool, optional: bool): ScanState {
    if d.cp in s.installs then s
    else Scan(env, s, d.cp, Wanted(d), RowsIn(env.binpkgs, d.cp), listed, optional)
  }

  function Step(env: Env, s: ScanState, d: Dep): ScanState
    requires d in s.seen
  {
    Process(env, Deq(s, d), d, s.listed != {}, s.seen[d])
  }

  // ------------------------------------------------------------- runs

  function Start(listed: set<Dep>): ScanState {
    ScanState(listed, map d | d in listed :: false, listed, map[], false)
  }

  /** From the listed dependencies, popping `pops` in this order leads to `s`. */
  ghost predicate IsRun(env: Env, listed: set<Dep>, pops: seq<Dep>, s: ScanState)
    decreases |pops|
  {
    if pops == [] then s == Start(listed)
    else exists t :: RunStep(env, listed, pops, t, s)
  }

  ghost predicate RunStep(env: Env, listed: set<Dep>, pops: seq<Dep>, t: ScanState, s: ScanState)
    requires pops != []
    decreases |pops|, 0
  {
    var d := pops[|pops| - 1];
    && IsRun(env, listed, pops[..|pops| - 1], t)
    && MayPop(t, d) && d in t.seen && s == Step(env, t, d)
  }

  /** The last step of a run. */
  lemma RunLast(env: Env, listed: set<Dep>, pops: seq<Dep>, s: ScanState) returns (t: ScanState)
    requires IsRun(env, listed, pops, s) && pops != []
    ensures RunStep(env, listed, pops, t, s)
  {
    t :| RunStep(env, listed, pops, t, s);
  }

  lemma RunSnoc(env: Env, listed: set<Dep>, pops: seq<Dep>, t: ScanState, d: Dep)
    requires IsRun(env, listed, pops, t) && MayPop(t, d) && d in t.seen
    ensures IsRun(env, listed, pops + [d], Step(env, t, d))
  {
    assert (pops + [d])[..|pops + [d]| - 1] == pops;
    assert RunStep(env, listed, pops + [d], t, Step(env, t, d));
  }

  // ------------------------------------------------------------- what scanning keeps

  /** Flags only move from optional to mandatory, and every new or upgraded dependency is queued. */
  ghost predicate Grows(s: ScanState, t: ScanState) {
    && t.listed == s.listed
    && s.queue <= t.queue
    && (forall d :: d in s.seen ==> d in t.seen && (t.seen[d] ==> s.seen[d]))
    && (forall d :: d in t.seen && (d !in s.seen || s.seen[d] != t.seen[d]) ==> d in t.queue)
    && (forall d :: d in t.queue && d !in s.queue ==> d in t.seen && (d !in s.seen || s.seen[d] != t.seen[d]))
    && s.installs.Keys <= t.installs.Keys
  }

  lemma EnqAllGrows(s: ScanState, ds: set<Dep>, optional: bool)
    ensures Grows(s, EnqAll(s, ds, optional))
    ensures EnqAll(s, ds, optional).installs == s.installs
    ensures forall d :: d in ds ==> d in EnqAll(s, ds, optional).seen && (!optional ==> !EnqAll(s, ds, optional).seen[d])
  {
  }

  lemma GrowsTransitive(s: ScanState, t: ScanState, u: ScanState)
    requires Grows(s, t) && Grows(t, u)
    ensures Grows(s, u)
  {
  }

  /** Every dependency in `ds` is seen as mandatory. */
  ghost predicate Mandatory(s: ScanState, ds: set<Dep>) {
    forall d :: d in ds ==> d in s.seen && !s.seen[d]
  }

  lemma RecordGrows(env: Env, s: ScanState, cp: CP, e: Entry, listed: bool, v: Verdict)
    ensures var t := Record(env, s, cp, e, listed, v);
      && Grows(s, t)
      && t.installs == s.installs[cp := Install(e.info.cpv, e.slot, listed, v.update)]
      && (env.rdeps ==> Mandatory(t, e.info.rdeps))
      && (forall d :: d in Dependents(env, cp, e.slot) ==> d in t.seen)
  {
    var s1 := s.(installs := s.installs[cp := Install(e.info.cpv, e.slot, listed, v.update)],
                 warned := s.warned || v.useMismatch);
    assert Grows(s, s1);
    var s2 := if env.rdeps then EnqAll(s1, e.info.rdeps, false) else s1;
    EnqAllGrows(s1, e.info.rdeps, false);
    assert Grows(s1, s2);
    GrowsTransitive(s, s1, s2);
    EnqAllGrows(s2, Dependents(env, cp, e.slot), true);
    GrowsTransitive(s, s2, Record(env, s, cp, e, listed, v));
  }

  /** The slot request as it stands when the `i`th slot is looked at. */
  function RequiredAt(required: Slot, es: seq<Entry>, i: nat): Slot
    requires i < |es|
  {
    Narrow(if i == 0 then required else RequiredAt(required, es, i - 1), es[i].slot)
  }

  /** The `i`th slot of the package answers the dependency and has to be installed. */
  ghost predicate Wants(env: Env, d: Dep, i: nat, optional: bool)
    requires i < |RowsIn(env.binpkgs, d.cp)|
  {
    var es := RowsIn(env.binpkgs, d.cp);
    var req := RequiredAt(Wanted(d), es, i);
    (req == "" || es[i].slot == req) && NeedsInstall(env, d.cp, es[i], optional).install
  }

  ghost predicate WantsAny(env: Env, d: Dep, optional: bool) {
    exists i :: 0 <= i < |RowsIn(env.binpkgs, d.cp)| && Wants(env, d, i, optional)
  }

  /** `cp` is installed from one of its rows; its forward dependencies are mandatory, its dependents are seen. */
  ghost predicate InstalledFrom(env: Env, s: ScanState, cp: CP) {
    exists i :: 0 <= i < |RowsIn(env.binpkgs, cp)| && FromRow(env, s, cp, i)
  }

  ghost predicate FromRow(env: Env, s: ScanState, cp: CP, i: nat)
    requires i < |RowsIn(env.binpkgs, cp)|
  {
    var e := RowsIn(env.binpkgs, cp)[i];
    && cp in s.installs && s.installs[cp].cpv == e.info.cpv && s.installs[cp].slot == e.slot
    && (s.installs[cp].update <==> Comparing(env) && InTarget(env, cp, e.slot).Some?)
    && Followed(env, s, cp, i)
  }

  /** The forward dependencies of a row are mandatory, and its dependents are seen. */
  ghost predicate Followed(env: Env, s: ScanState, cp: CP, i: nat)
    requires i < |RowsIn(env.binpkgs, cp)|
  {
    var e := RowsIn(env.binpkgs, cp)[i];
    && (env.rdeps ==> Mandatory(s, e.info.rdeps))
    && (forall d :: d in Dependents(env, cp, e.slot) ==> d in s.seen)
  }

  /**
    From the `n`th slot on, each one `d` wants has been followed, the
    overwritten ones included, and the last of them is what is installed.
   */
  ghost predicate InstalledBy(env: Env, s: ScanState, d: Dep, optional: bool, n: nat) {
    && (forall j :: n <= j < |RowsIn(env.binpkgs, d.cp)| && Wants(env, d, j, optional) ==> Followed(env, s, d.cp, j))
    && exists i :: n <= i < |RowsIn(env.binpkgs, d.cp)| && LastWanted(env, d, optional, i) && FromRow(env, s, d.cp, i)
  }

  ghost predicate LastWanted(env: Env, d: Dep, optional: bool, i: nat)
    requires i < |RowsIn(env.binpkgs, d.cp)|
  {
    && Wants(env, d, i, optional)
    && forall j :: i < j < |RowsIn(env.binpkgs, d.cp)| ==> !Wants(env, d, j, optional)
  }

  /** Some seen dependency asked for the install, with its final flag or while it was still optional. */
  ghost predicate InstalledFor(env: Env, s: ScanState, cp: CP) {
    exists d, optional :: Asks(env, s, cp, d, optional)
  }

  ghost predicate Asks(env: Env, s: ScanState, cp: CP, d: Dep, optional: bool) {
    d.cp == cp && d in s.seen && (s.seen[d] ==> optional) && InstalledBy(env, s, d, optional, 0)
  }

  lemma InstalledByGrows(env: Env, s: ScanState, t: ScanState, d: Dep, optional: bool, n: nat)
    requires InstalledBy(env, s, d, optional, n) && Grows(s, t)
    requires d.cp in t.installs && t.installs[d.cp] == s.installs[d.cp]
    ensures InstalledBy(env, t, d, optional, n)
  {
    forall j | n <= j < |RowsIn(env.binpkgs, d.cp)| && Wants(env, d, j, optional) ensures Followed(env, t, d.cp, j) {
      assert Followed(env, s, d.cp, j);
    }
    var i :| n <= i < |RowsIn(env.binpkgs, d.cp)| && LastWanted(env, d, optional, i) && FromRow(env, s, d.cp, i);
    FromRowGrows(env, s, t, d.cp, i);
  }

  lemma FromRowGrows(env: Env, s: ScanState, t: ScanState, cp: CP, i: nat)
    requires i < |RowsIn(env.binpkgs, cp)| && FromRow(env, s, cp, i)
    requires Grows(s, t) && cp in t.installs && t.installs[cp] == s.installs[cp]
    ensures FromRow(env, t, cp, i)
  {
  }

  /** Scanning the slots from the `n`th on. */
  ghost predicate Scanned(env: Env, s: ScanState, t: ScanState, d: Dep, n: nat, listed: bool, optional: bool) {
    var es := RowsIn(env.binpkgs, d.cp);
    && Grows(s, t)
    && (forall cp :: cp != d.cp ==> (cp in t.installs <==> cp in s.installs))
    && (forall cp :: cp != d.cp && cp in s.installs ==> t.installs[cp] == s.installs[cp])
    && (t.installs == s.installs || (d.cp in t.installs && t.installs[d.cp].listed == listed))
    && (if exists i :: n <= i < |es| && Wants(env, d, i, optional) then InstalledBy(env, t, d, optional, n)
        else t.installs == s.installs)
    && (d.cp in t.installs <==>
          d.cp in s.installs || exists i :: n <= i < |es| && Wants(env, d, i, optional))
  }

  lemma {:induction false} ScanScanned(env: Env, s: ScanState, d: Dep, n: nat, listed: bool, optional: bool)
    requires n <= |RowsIn(env.binpkgs, d.cp)|
    ensures var es := RowsIn(env.binpkgs, d.cp);
            var req := if n == 0 then Wanted(d) else RequiredAt(Wanted(d), es, n - 1);
            Scanned(env, s, Scan(env, s, d.cp, req, es[n..], listed, optional), d, n, listed, optional)
    decreases |RowsIn(env.binpkgs, d.cp)| - n
  {
    var es := RowsIn(env.binpkgs, d.cp);
    if n < |es| {
      var req := if n == 0 then Wanted(d) else RequiredAt(Wanted(d), es, n - 1);
      var e := es[n];
      var v := NeedsInstall(env, d.cp, e, optional);
      assert es[n..][0] == e && es[n..][1..] == es[n + 1..];
      var s1 := if Wants(env, d, n, optional) then Record(env, s, d.cp, e, listed, v) else s;
      ScanScanned(env, s1, d, n + 1, listed, optional);
      ScanJoin(env, s, s1, Scan(env, s, d.cp, req, es[n..], listed, optional), d, n, listed, optional);
    }
  }

  lemma ScanJoin(env: Env, s: ScanState, s1: ScanState, t: ScanState, d: Dep, n: nat, listed: bool, optional: bool)
    requires n < |RowsIn(env.binpkgs, d.cp)|
    requires var e := RowsIn(env.binpkgs, d.cp)[n];
             s1 == if Wants(env, d, n, optional) then
                     Record(env, s, d.cp, e, listed, NeedsInstall(env, d.cp, e, optional)) else s
    requires Scanned(env, s1, t, d, n + 1, listed, optional)
    ensures Scanned(env, s, t, d, n, listed, optional)
  {
    var es := RowsIn(env.binpkgs, d.cp);
    var v := NeedsInstall(env, d.cp, es[n], optional);
    if Wants(env, d, n, optional) {
      RecordGrows(env, s, d.cp, es[n], listed, v);
      GrowsTransitive(s, s1, t);
      assert FromRow(env, s1, d.cp, n);
      JoinInstalled(env, s1, t, d, n, optional);
    } else if i :| n <= i < |es| && Wants(env, d, i, optional) {
      assert n + 1 <= i;
      WiderInstalled(env, t, d, n, optional);
    }
  }

  /** The slot before those scanned is not wanted. */
  lemma WiderInstalled(env: Env, t: ScanState, d: Dep, n: nat, optional: bool)
    requires n < |RowsIn(env.binpkgs, d.cp)| && !Wants(env, d, n, optional)
    requires InstalledBy(env, t, d, optional, n + 1)
    ensures InstalledBy(env, t, d, optional, n)
  {
    var i :| n + 1 <= i < |RowsIn(env.binpkgs, d.cp)| && LastWanted(env, d, optional, i) && FromRow(env, t, d.cp, i);
    forall j | n <= j < |RowsIn(env.binpkgs, d.cp)| && Wants(env, d, j, optional) ensures Followed(env, t, d.cp, j) {
      assert j != n;
    }
  }

  /** The slot before those scanned is wanted, and stays installed unless a later one is. */
  lemma JoinInstalled(env: Env, s1: ScanState, t: ScanState, d: Dep, n: nat, optional: bool)
    requires n < |RowsIn(env.binpkgs, d.cp)| && Wants(env, d, n, optional)
    requires FromRow(env, s1, d.cp, n) && Grows(s1, t)
    requires if exists i :: n + 1 <= i < |RowsIn(env.binpkgs, d.cp)| && Wants(env, d, i, optional)
             then InstalledBy(env, t, d, optional, n + 1) else t.installs == s1.installs
    ensures InstalledBy(env, t, d, optional, n)
  {
    assert Followed(env, t, d.cp, n);
    if k :| n + 1 <= k < |RowsIn(env.binpkgs, d.cp)| && Wants(env, d, k, optional) {
      var i :| n + 1 <= i < |RowsIn(env.binpkgs, d.cp)| && LastWanted(env, d, optional, i) && FromRow(env, t, d.cp, i);
    } else {
      FromRowGrows(env, s1, t, d.cp, n);
      assert LastWanted(env, d, optional, n);
    }
  }
}
