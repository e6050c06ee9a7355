/**
  What is installed in the end, told by the rows of the two databases: which
  slots a request matches, when a package needs installing, and what follows.
 */
module InstallMeaning {
  import opened Basics
  import opened DependencyTrees
  import opened PackageDb
  import opened InstallRuns
  import opened InstallTheorems

  // ------------------------------------------------------------- the installed packages

  /** Row `j` is the installed package of `cp` in the slot. */
  ghost predicate HeldAt(env: Env, cp: CP, slot: Slot, j: int) {
    && env.target.Some? && cp in env.target.value && 0 <= j < |env.target.value[cp]|
    && env.target.value[cp][j].slot == slot
    && forall k :: 0 <= k < j ==> env.target.value[cp][k].slot != slot
  }

  ghost predicate Held(env: Env, cp: CP, slot: Slot) {
    exists j :: HeldAt(env, cp, slot, j)
  }

  function HeldInfo(env: Env, cp: CP, j: nat): PkgInfo
    requires env.target.Some? && cp in env.target.value && j < |env.target.value[cp]|
  {
    env.target.value[cp][j].info
  }

  lemma {:induction false} SlotEntryMeans(es: seq<Entry>, slot: Slot)
    ensures SlotEntry(es, slot).None? <==> forall j :: 0 <= j < |es| ==> es[j].slot != slot
    ensures SlotEntry(es, slot).Some? ==>
      exists j :: 0 <= j < |es| && es[j] == SlotEntry(es, slot).value && es[j].slot == slot
        && forall k :: 0 <= k < j ==> es[k].slot != slot
  {
    if es != [] && es[0].slot != slot {
      SlotEntryMeans(es[1..], slot);
      if SlotEntry(es, slot).Some? {
        var j :| 0 <= j < |es| - 1 && es[1..][j] == SlotEntry(es, slot).value && es[1..][j].slot == slot
          && forall k :: 0 <= k < j ==> es[1..][k].slot != slot;
        assert es[j + 1] == SlotEntry(es, slot).value;
        forall k | 0 <= k < j + 1 ensures es[k].slot != slot {
          if k > 0 {
            assert es[1..][k - 1].slot != slot;
          }
        }
      } else {
        forall j | 0 <= j < |es| ensures es[j].slot != slot {
          if j > 0 {
            assert es[1..][j - 1].slot != slot;
          }
        }
      }
    }
  }

  lemma HeldOnce(env: Env, cp: CP, slot: Slot, i: int, j: int)
    requires HeldAt(env, cp, slot, i) && HeldAt(env, cp, slot, j)
    ensures i == j
  {
  }

  lemma TargetMeans(env: Env, cp: CP, slot: Slot)
    ensures InTarget(env, cp, slot).Some? <==> Held(env, cp, slot)
    ensures forall j :: HeldAt(env, cp, slot, j) ==> InTarget(env, cp, slot) == Some(HeldInfo(env, cp, j))
  {
    if env.target.Some? && cp in env.target.value {
      var es := env.target.value[cp];
      SlotEntryMeans(es, slot);
      if SlotEntry(es, slot).Some? {
        var i :| 0 <= i < |es| && es[i] == SlotEntry(es, slot).value && es[i].slot == slot
          && forall k :: 0 <= k < i ==> es[k].slot != slot;
        assert HeldAt(env, cp, slot, i);
        forall j | HeldAt(env, cp, slot, j) ensures InTarget(env, cp, slot) == Some(HeldInfo(env, cp, j)) {
          HeldOnce(env, cp, slot, i, j);
        }
      }
    }
  }

  // ------------------------------------------------------------- when a package needs installing

  /** The package installed in the same slot has another version or was built at another time. */
  ghost predicate Outdated(env: Env, cp: CP, e: Entry) {
    exists j :: HeldAt(env, cp, e.slot, j)
      && (HeldInfo(env, cp, j).cpv.version != e.info.cpv.version || HeldInfo(env, cp, j).buildTime != e.info.buildTime)
  }

  /**
    There is nothing to compare with, or the installed package is outdated,
    or there is none in the slot and the request is not optional.
   */
  ghost predicate Needed(env: Env, cp: CP, e: Entry, optional: bool) {
    || env.target == None || env.target == Some(map[])
    || Outdated(env, cp, e)
    || (!optional && !Held(env, cp, e.slot))
  }

  lemma NeedsInstallMeans(env: Env, cp: CP, e: Entry, optional: bool)
    ensures NeedsInstall(env, cp, e, optional).install <==> Needed(env, cp, e, optional)
  {
    TargetMeans(env, cp, e.slot);
    if j :| HeldAt(env, cp, e.slot, j) {
      assert InTarget(env, cp, e.slot) == Some(HeldInfo(env, cp, j));
      forall i | HeldAt(env, cp, e.slot, i) ensures i == j {
        HeldOnce(env, cp, e.slot, i, j);
      }
    }
  }

  // ------------------------------------------------------------- which slots a request matches

  /** `base` is the part of a slot before its subslot. */
  ghost predicate IsBase(slot: Slot, base: Slot) {
    base <= slot && '/' !in base && (base == slot || slot[|base|] == '/')
  }

  lemma {:induction false} BaseMeans(slot: Slot, base: Slot)
    ensures IsBase(slot, base) <==> base == Base(slot)
  {
    if slot == "" {
    } else if slot[0] == '/' {
      assert IsBase(slot, "");
      if base != "" && base <= slot {
        assert base[0] == '/';
      }
    } else {
      var rest := slot[1..];
      BaseMeans(rest, Base(rest));
      assert Base(slot) == [slot[0]] + Base(rest);
      if IsBase(slot, base) {
        assert base != "" && base[0] == slot[0];
        assert base == [slot[0]] + base[1..] && base[1..] <= rest;
        BaseMeans(rest, base[1..]);
      }
    }
  }

  /** A request for no slot, or for the empty one, matches every row. */
  ghost predicate AsksAny(d: Dep) {
    d.slot == None || d.slot == Some("")
  }

  /**
    The request matches row `i`: it asks for any slot, or for this one; from
    the first row whose slot has no subslot on, only what the request says
    before its own subslot counts.
   */
  ghost predicate Matches(d: Dep, es: seq<Entry>, i: nat)
    requires i < |es|
  {
    || AsksAny(d)
    || exists slot :: AskedSlot(d, es, i, slot) && (slot == "" || slot == es[i].slot)
  }

  ghost predicate AskedSlot(d: Dep, es: seq<Entry>, i: nat, slot: Slot)
    requires i < |es|
  {
    d.slot.Some? &&
    if exists j :: 0 <= j <= i && '/' !in es[j].slot then IsBase(d.slot.value, slot) else slot == d.slot.value
  }

  /** The request as narrowed on the way to row `i`. */
  lemma {:induction false} RequiredMeans(q: Slot, es: seq<Entry>, i: nat)
    requires i < |es| && q != ""
    ensures RequiredAt(q, es, i) == if exists j :: 0 <= j <= i && '/' !in es[j].slot then Base(q) else q
  {
    BaseMeans(q, Base(q));
    BaseMeans(Base(q), Base(Base(q)));
    BaseMeans(Base(q), Base(q));
    if i > 0 {
      RequiredMeans(q, es, i - 1);
      assert (exists j :: 0 <= j <= i && '/' !in es[j].slot) <==>
          '/' !in es[i].slot || exists j :: 0 <= j <= i - 1 && '/' !in es[j].slot;
    }
  }

  lemma {:induction false} RequiredNothing(es: seq<Entry>, i: nat)
    requires i < |es|
    ensures RequiredAt("", es, i) == ""
  {
    if i > 0 {
      RequiredNothing(es, i - 1);
    }
  }

  lemma MatchMeans(d: Dep, es: seq<Entry>, i: nat)
    requires i < |es|
    ensures var req := RequiredAt(Wanted(d), es, i);
            (req == "" || es[i].slot == req) <==> Matches(d, es, i)
  {
    if AsksAny(d) {
      RequiredNothing(es, i);
    } else {
      var q := d.slot.value;
      RequiredMeans(q, es, i);
      forall slot ensures IsBase(q, slot) <==> slot == Base(q) {
        BaseMeans(q, slot);
      }
      assert AskedSlot(d, es, i, RequiredAt(q, es, i));
    }
  }

  /** A request wants the rows it matches that need installing. */
  lemma WantsMeans(env: Env, d: Dep, i: nat, optional: bool)
    requires i < |RowsIn(env.binpkgs, d.cp)|
    ensures Wants(env, d, i, optional) <==>
              Matches(d, RowsIn(env.binpkgs, d.cp), i) && Needed(env, d.cp, RowsIn(env.binpkgs, d.cp)[i], optional)
  {
    MatchMeans(d, RowsIn(env.binpkgs, d.cp), i);
    NeedsInstallMeans(env, d.cp, RowsIn(env.binpkgs, d.cp)[i], optional);
  }

  // ------------------------------------------------------------- what a finished run has installed

  /** Row `i` of the available packages is one the request asks for, and it needs installing. */
  ghost predicate AsksFor(env: Env, d: Dep, optional: bool, i: int) {
    && d.cp in env.binpkgs && 0 <= i < |env.binpkgs[d.cp]|
    && Matches(d, env.binpkgs[d.cp], i) && Needed(env, d.cp, env.binpkgs[d.cp][i], optional)
  }

  lemma AsksForMeans(env: Env, d: Dep, optional: bool)
    ensures forall i :: AsksFor(env, d, optional, i) <==>
              0 <= i < |RowsIn(env.binpkgs, d.cp)| && Wants(env, d, i, optional)
    ensures WantsAny(env, d, optional) <==> exists i :: AsksFor(env, d, optional, i)
  {
    forall i | 0 <= i < |RowsIn(env.binpkgs, d.cp)| ensures AsksFor(env, d, optional, i) <==> Wants(env, d, i, optional) {
      WantsMeans(env, d, i, optional);
    }
    if i :| 0 <= i < |RowsIn(env.binpkgs, d.cp)| && Wants(env, d, i, optional) {
      assert AsksFor(env, d, optional, i);
    }
  }

  /** A package is installed if and only if some request seen asks for one of its rows that needs installing. */
  lemma InstalledExactlyWhen(env: Env, listed: set<Dep>, pops: seq<Dep>, s: ScanState, cp: CP)
    requires IsRun(env, listed, pops, s) && s.queue == {}
    ensures cp in s.installs <==> exists d, i :: d in s.seen && d.cp == cp && AsksFor(env, d, s.seen[d], i)
  {
    ClosedAtExit(env, listed, pops, s);
    if cp in s.installs {
      var d, optional :| Asks(env, s, cp, d, optional);
      var i :| 0 <= i < |RowsIn(env.binpkgs, d.cp)| && LastWanted(env, d, optional, i) && FromRow(env, s, d.cp, i);
      OptionalWantsLess(env, d);
      assert Wants(env, d, i, s.seen[d]);
      AsksForMeans(env, d, s.seen[d]);
    }
    if d, i :| d in s.seen && d.cp == cp && AsksFor(env, d, s.seen[d], i) {
      AsksForMeans(env, d, s.seen[d]);
    }
  }

  /** A package named without a slot is installed if and only if one of its rows needs installing. */
  lemma NamedInstalledExactlyWhen(env: Env, listed: set<Dep>, pops: seq<Dep>, s: ScanState, d: Dep)
    requires IsRun(env, listed, pops, s) && s.queue == {} && d in listed && AsksAny(d)
    ensures d.cp in s.installs <==>
      d.cp in env.binpkgs && exists i :: 0 <= i < |env.binpkgs[d.cp]| && Needed(env, d.cp, env.binpkgs[d.cp][i], false)
  {
    ClosedAtExit(env, listed, pops, s);
    InstalledExactlyWhen(env, listed, pops, s, d.cp);
    if x, i :| x in s.seen && x.cp == d.cp && AsksFor(env, x, s.seen[x], i) {
      assert Needed(env, d.cp, env.binpkgs[d.cp][i], false);
    }
    if d.cp in env.binpkgs {
      if i :| 0 <= i < |env.binpkgs[d.cp]| && Needed(env, d.cp, env.binpkgs[d.cp][i], false) {
        assert AsksFor(env, d, s.seen[d], i);
      }
    }
  }

  /** What a row needs is seen as mandatory, and what depends on the package it replaces is seen. */
  ghost predicate Brought(env: Env, s: ScanState, cp: CP, e: Entry) {
    && (env.rdeps ==> forall x :: x in e.info.rdeps ==> x in s.seen && !s.seen[x])
    && (env.revRdeps ==>
          forall j, x :: HeldAt(env, cp, e.slot, j) && x in HeldInfo(env, cp, j).revRdeps ==> x in s.seen)
  }

  lemma FollowedMeans(env: Env, s: ScanState, cp: CP, i: nat)
    requires cp in env.binpkgs && i < |env.binpkgs[cp]|
    ensures Followed(env, s, cp, i) <==> Brought(env, s, cp, env.binpkgs[cp][i])
  {
    var e := env.binpkgs[cp][i];
    TargetMeans(env, cp, e.slot);
    if j :| HeldAt(env, cp, e.slot, j) {
      forall i | HeldAt(env, cp, e.slot, i) ensures i == j {
        HeldOnce(env, cp, e.slot, i, j);
      }
    }
  }

  /**
    Request `d` is behind the install of its package: row `i` is the last one
    it asks for and the one installed, and all rows it asks for have brought
    in what they need.
   */
  ghost predicate Behind(env: Env, s: ScanState, d: Dep, optional: bool, i: int) {
    && d in s.seen && (s.seen[d] ==> optional)
    && AsksFor(env, d, optional, i) && (forall j :: AsksFor(env, d, optional, j) ==> j <= i)
    && (forall j :: AsksFor(env, d, optional, j) ==> Brought(env, s, d.cp, env.binpkgs[d.cp][j]))
    && d.cp in s.installs
    && s.installs[d.cp].cpv == env.binpkgs[d.cp][i].info.cpv
    && s.installs[d.cp].slot == env.binpkgs[d.cp][i].slot
    && (s.installs[d.cp].update <==> Held(env, d.cp, env.binpkgs[d.cp][i].slot))
  }

  /** Every install has such a request behind it. */
  lemma InstallMeans(env: Env, listed: set<Dep>, pops: seq<Dep>, s: ScanState, cp: CP)
    returns (d: Dep, optional: bool, i: int)
    requires IsRun(env, listed, pops, s) && cp in s.installs
    ensures d.cp == cp && Behind(env, s, d, optional, i)
  {
    RunKeepsInv(env, listed, pops, s);
    d, optional :| Asks(env, s, cp, d, optional);
    i :| 0 <= i < |RowsIn(env.binpkgs, d.cp)| && LastWanted(env, d, optional, i) && FromRow(env, s, d.cp, i);
    AsksForMeans(env, d, optional);
    TargetMeans(env, cp, env.binpkgs[cp][i].slot);
    forall j | AsksFor(env, d, optional, j) ensures Brought(env, s, cp, env.binpkgs[cp][j]) {
      FollowedMeans(env, s, cp, j);
    }
  }

  /** The USE-flag warning: a row asked for would replace an outdated package with other flags. */
  lemma WarnsMeans(env: Env, d: Dep, i: nat, optional: bool)
    requires d.cp in env.binpkgs && i < |env.binpkgs[d.cp]|
    ensures var e := env.binpkgs[d.cp][i];
      WarnsAt(env, d, i, optional) <==>
        && Matches(d, env.binpkgs[d.cp], i) && Outdated(env, d.cp, e)
        && exists j :: HeldAt(env, d.cp, e.slot, j) && HeldInfo(env, d.cp, j).use != e.info.use
  {
    var e := env.binpkgs[d.cp][i];
    WantsMeans(env, d, i, optional);
    TargetMeans(env, d.cp, e.slot);
    if j :| HeldAt(env, d.cp, e.slot, j) {
      forall i | HeldAt(env, d.cp, e.slot, i) ensures i == j {
        HeldOnce(env, d.cp, e.slot, i, j);
      }
    }
  }
}
