/** What a built package database holds, package by package. */
module DatabaseMeaning {
  import opened Basics
  import opened DependencyTrees
  import opened PackageDb

  /** The entry is the listed package: its slot, version, build time, USE flags and dependency string. */
  ghost predicate Shows(e: Entry, i: CpvInfo) {
    && e.slot == i.slot && e.info.cpv == i.cpv && e.info.buildTime == i.buildTime && e.info.use == i.use
    && e.info.rdepsRaw == i.rdeps
  }

  /** The entries of a CP are its listed packages, in the order of the listing. */
  lemma {:induction false} RowsMean(infos: seq<CpvInfo>, cp: CP) returns (at: seq<nat>)
    ensures var rows := Rows(infos, cp);
      && |at| == |rows|
      && (forall k :: 0 <= k < |at| ==> at[k] < |infos| && infos[at[k]].cpv.cp == cp && Shows(rows[k], infos[at[k]]))
      && (forall k, l :: 0 <= k < l < |at| ==> at[k] < at[l])
      && (forall i: nat :: i < |infos| && infos[i].cpv.cp == cp ==> i in at)
  {
    if infos == [] {
      at := [];
    } else {
      var init := infos[..|infos| - 1];
      var before := RowsMean(init, cp);
      at := before;
      if infos[|init|].cpv.cp == cp {
        at := before + [|init|];
        assert at[|before|] == |init|;
      }
      forall i: nat | i < |infos| && infos[i].cpv.cp == cp ensures i in at {
        if i < |init| {
          assert init[i].cpv.cp == cp && i in before;
        }
      }
    }
  }

  /** The index lists the slots of each package. */
  ghost predicate Indexes(index: Index, db: DB) {
    && index.Keys == db.Keys
    && forall cp, slot :: cp in db ==> (slot in index[cp] <==> exists e :: e in db[cp] && e.slot == slot)
  }

  /** Given installed packages, these count as installed and the database as available; else the database counts as installed. */
  ghost predicate JudgedBy(c: Choice, db: DB, installed: Option<DB>) {
    && Indexes(c.installed, if installed.Some? then installed.value else db)
    && (c.avail.Some? <==> installed.Some?)
    && (c.avail.Some? ==> Indexes(c.avail.value, db))
  }

  lemma ChoicesAreJudged(db: DB, installed: Option<DB>)
    ensures JudgedBy(ChoiceFor(db, installed), db, installed)
  {
  }

  /** A dependency string resolves unless it is missing or a token is out of place, to what its expressions ask for. */
  lemma ResolveMeans(c: Choice, raw: Option<seq<Token>>)
    ensures Resolve(c, raw).Err? <==> raw.None? || Misplaced(raw.value, false, false)
    ensures Resolve(c, raw).Ok? ==> Resolves(c, raw.value, false, Resolve(c, raw).value)
  {
    if raw.Some? {
      GroupResolves(c, raw.value, false);
    }
  }

  /** The forward dependencies of an entry, if they are wanted. */
  ghost predicate HasForward(e: Entry, c: Choice, rdeps: bool) {
    if rdeps then e.info.rdepsRaw.Some? && Resolves(c, e.info.rdepsRaw.value, false, e.info.rdeps)
    else e.info.rdeps == {}
  }

  /** A database built with `rdeps` holds for each package what its string resolves to, judged by the right databases. */
  lemma BuiltMeans(infos: seq<CpvInfo>, rdeps: bool, installed: Option<DB>, db: DB) returns (c: Choice)
    requires Built(infos, rdeps, installed, db)
    ensures JudgedBy(c, Plain(infos), installed)
    ensures forall cp :: cp in db <==> HasCP(infos, cp)
    ensures forall cp, i :: cp in db && 0 <= i < |db[cp]| ==> HasForward(db[cp][i], c, rdeps)
    ensures forall cp, i :: cp in db && 0 <= i < |db[cp]| ==> IsListed(infos, cp, db[cp][i])
  {
    var plain := Plain(infos);
    c := ChoiceFor(plain, installed);
    ChoicesAreJudged(plain, installed);
    var mid :| SameButReverse(mid, db) && if rdeps then AllFilled(c, plain, mid) else mid == plain;
    forall cp, i | cp in db && 0 <= i < |db[cp]| ensures HasForward(db[cp][i], c, rdeps) && IsListed(infos, cp, db[cp][i]) {
      assert rdeps ==> Filled(c, plain[cp][i], mid[cp][i]);
      PlainMeans(infos, cp, i);
      EntryMeans(c, rdeps, plain[cp][i], mid[cp][i], db[cp][i]);
    }
  }

  ghost predicate IsListed(infos: seq<CpvInfo>, cp: CP, e: Entry) {
    exists x :: x in infos && x.cpv.cp == cp && Shows(e, x)
  }

  lemma EntryMeans(c: Choice, rdeps: bool, plain: Entry, mid: Entry, e: Entry)
    requires if rdeps then Filled(c, plain, mid) else mid == plain
    requires plain.info.rdeps == {} && e == mid.(info := mid.info.(revRdeps := e.info.revRdeps))
    ensures HasForward(e, c, rdeps)
    ensures forall x :: Shows(plain, x) ==> Shows(e, x)
  {
    ResolveMeans(c, plain.info.rdepsRaw);
    if rdeps {
      assert {} + mid.info.rdeps == mid.info.rdeps;
    }
  }

  lemma PlainMeans(infos: seq<CpvInfo>, cp: CP, i: nat)
    requires cp in Plain(infos) && i < |Plain(infos)[cp]|
    ensures Plain(infos)[cp][i].info.rdeps == {} && IsListed(infos, cp, Plain(infos)[cp][i])
  {
    RowsSlots(infos, cp);
    var e := Plain(infos)[cp][i];
    assert e in Rows(infos, cp);
    var x :| x in infos && e == Row(x);
    assert Shows(e, x);
  }

  /** `x` is the package at row `j` of `c`, and it has a dependency on `cp` that leaves the slot open or asks for this one. */
  ghost predicate Depends(db: DB, x: Dep, c: CP, j: int, d: Dep, cp: CP, slot: Slot) {
    && c in db && 0 <= j < |db[c]| && x == Dep(c, Some(db[c][j].slot)) && d in db[c][j].info.rdeps
    && d.cp == cp && (d.slot == None || d.slot == Some("") || d.slot == Some(slot))
  }

  /** The reverse dependencies of each package are exactly the packages that depend on it. */
  lemma InvertedMeans(db: DB, cp: CP, i: nat, x: Dep)
    requires Inverted(db) && cp in db && i < |db[cp]|
    ensures x in db[cp][i].info.revRdeps <==> exists c, j, d :: Depends(db, x, c, j, d, cp, db[cp][i].slot)
  {
    var slot := db[cp][i].slot;
    if DependsOnPkg(db, x, cp, slot) {
      var c, j, d :| c in db && 0 <= j < |db[c]| && x == Here(c, db[c][j]) && d in db[c][j].info.rdeps && Hits(d, cp, slot);
      assert Depends(db, x, c, j, d, cp, slot);
    }
    if c, j, d :| Depends(db, x, c, j, d, cp, slot) {
      assert x == Here(c, db[c][j]) && Hits(d, cp, slot);
    }
  }
}
