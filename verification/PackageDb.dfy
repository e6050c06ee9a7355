/** The package database: forward dependencies and their inverted index. */
module PackageDb {
  import opened Basics
  import opened DependencyTrees

  datatype CPV = CPV(cp: CP, version: string)

  /** One package as reported by the package tree; `rdeps` is None when the string does not parse. */
  datatype CpvInfo = CpvInfo(cpv: CPV, slot: Slot, rdeps: Option<seq<Token>>, buildTime: string, use: string)

  datatype PkgInfo = PkgInfo(
    cpv: CPV,
    buildTime: string,
    use: string,
    rdepsRaw: Option<seq<Token>>,
    rdeps: set<Dep>,
    revRdeps: set<Dep>)

  datatype Entry = Entry(slot: Slot, info: PkgInfo)

  /** Packages by CP; the slots of one CP keep the order in which they were added. */
  type DB = map<CP, seq<Entry>>

  datatype DbError = Duplicate(cp: CP, slot: Slot) | BadDeps(error: DepError)

  function Slots(es: seq<Entry>): set<Slot> {
    set e | e in es :: e.slot
  }

  function IndexOf(db: DB): Index {
    map cp | cp in db :: Slots(db[cp])
  }

  // ------------------------------------------------------------- layout

  function Row(i: CpvInfo): Entry {
    Entry(i.slot, PkgInfo(i.cpv, i.buildTime, i.use, i.rdeps, {}, {}))
  }

  /** The packages of one CP, in order. */
  function Rows(infos: seq<CpvInfo>, cp: CP): seq<Entry> {
    if infos == [] then []
    else
      var i := infos[|infos| - 1];
      Rows(infos[..|infos| - 1], cp) + (if i.cpv.cp == cp then [Row(i)] else [])
  }

  ghost predicate Occupies(infos: seq<CpvInfo>, cp: CP, slot: Slot) {
    exists j :: 0 <= j < |infos| && infos[j].cpv.cp == cp && infos[j].slot == slot
  }

  ghost predicate HasDuplicate(infos: seq<CpvInfo>) {
    exists i, j :: 0 <= i < j < |infos| && infos[i].cpv.cp == infos[j].cpv.cp && infos[i].slot == infos[j].slot
  }

  ghost predicate SharedSlot(infos: seq<CpvInfo>, cp: CP, slot: Slot) {
    exists i, j :: 0 <= i < j < |infos|
      && infos[i].cpv.cp == cp && infos[i].slot == slot && infos[j].cpv.cp == cp && infos[j].slot == slot
  }

  ghost predicate HasCP(infos: seq<CpvInfo>, cp: CP) {
    exists j :: 0 <= j < |infos| && infos[j].cpv.cp == cp
  }

  /** `db` holds exactly the listed packages. */
  ghost predicate Lists(infos: seq<CpvInfo>, db: DB) {
    && (forall cp :: cp in db <==> HasCP(infos, cp))
    && (forall cp :: cp in db ==> db[cp] == Rows(infos, cp))
  }

  lemma {:induction false} RowsHold(infos: seq<CpvInfo>, cp: CP)
    ensures forall e :: e in Rows(infos, cp) ==> e.info.cpv.cp == cp && exists i :: i in infos && e == Row(i)
    ensures forall i :: i in infos && i.cpv.cp == cp ==> Row(i) in Rows(infos, cp)
    decreases |infos|
  {
    if infos != [] {
      var init, last := infos[..|infos| - 1], infos[|infos| - 1];
      RowsHold(init, cp);
      assert infos == init + [last];
    }
  }

  /** A row holds the listed packages of its CP, at their slots. */
  lemma RowsSlots(infos: seq<CpvInfo>, cp: CP)
    ensures forall slot :: slot in Slots(Rows(infos, cp)) <==> Occupies(infos, cp, slot)
    ensures forall e :: e in Rows(infos, cp) ==> e.info.cpv.cp == cp && exists i :: i in infos && e == Row(i)
    ensures forall i :: i in infos && i.cpv.cp == cp ==> Row(i) in Rows(infos, cp)
  {
    RowsHold(infos, cp);
    var rows := Rows(infos, cp);
    forall slot ensures slot in Slots(rows) <==> Occupies(infos, cp, slot) {
      if slot in Slots(rows) {
        var e :| e in rows && e.slot == slot;
        var i :| i in infos && e == Row(i);
        var j :| 0 <= j < |infos| && infos[j] == i;
      }
      if Occupies(infos, cp, slot) {
        var j :| 0 <= j < |infos| && infos[j].cpv.cp == cp && infos[j].slot == slot;
        var i := infos[j];
        assert i in infos && Row(i) in rows;
      }
    }
  }

  lemma {:induction false} RowsOfUnknown(infos: seq<CpvInfo>, cp: CP)
    ensures Rows(infos, cp) == [] <==> !HasCP(infos, cp)
  {
    if infos != [] {
      var init := infos[..|infos| - 1];
      RowsOfUnknown(init, cp);
      if HasCP(init, cp) {
        var j :| 0 <= j < |init| && init[j].cpv.cp == cp;
        assert infos[j].cpv.cp == cp;
      }
    }
  }

  lemma ListsSnoc(infos: seq<CpvInfo>, db: DB, i: CpvInfo)
    requires Lists(infos, db)
    ensures var rows := if i.cpv.cp in db then db[i.cpv.cp] else [];
            Lists(infos + [i], db[i.cpv.cp := rows + [Row(i)]])
    ensures !HasDuplicate(infos) && !Occupies(infos, i.cpv.cp, i.slot) ==> !HasDuplicate(infos + [i])
  {
    var all := infos + [i];
    assert all[..|all| - 1] == infos;
    RowsOfUnknown(infos, i.cpv.cp);
    forall cp ensures HasCP(all, cp) <==> HasCP(infos, cp) || cp == i.cpv.cp {
      if cp == i.cpv.cp {
        assert all[|infos|].cpv.cp == cp;
      }
      if HasCP(infos, cp) {
        var j :| 0 <= j < |infos| && infos[j].cpv.cp == cp;
        assert all[j].cpv.cp == cp;
      }
    }
  }

  function RowsIn(db: DB, cp: CP): seq<Entry> {
    if cp in db then db[cp] else []
  }

  /** The next package clashes exactly when its slot is already taken. */
  lemma Clash(infos: seq<CpvInfo>, i: nat, db: DB)
    requires i < |infos| && Lists(infos[..i], db) && !HasDuplicate(infos[..i])
    ensures var rows := RowsIn(db, infos[i].cpv.cp);
      if infos[i].slot in Slots(rows) then HasDuplicate(infos) && SharedSlot(infos, infos[i].cpv.cp, infos[i].slot)
      else !HasDuplicate(infos[..i + 1]) && Lists(infos[..i + 1], db[infos[i].cpv.cp := rows + [Row(infos[i])]])
  {
    var info, before := infos[i], infos[..i];
    RowsSlots(before, info.cpv.cp);
    RowsOfUnknown(before, info.cpv.cp);
    if info.slot in Slots(RowsIn(db, info.cpv.cp)) {
      var j :| 0 <= j < |before| && before[j].cpv.cp == info.cpv.cp && before[j].slot == info.slot;
      assert infos[j].cpv.cp == infos[i].cpv.cp && infos[j].slot == infos[i].slot;
    } else {
      ListsSnoc(before, db, info);
      assert infos[..i + 1] == before + [info];
    }
  }

  /** Groups the packages by CP; fails exactly when two of them share a slot. */
  method Layout(infos: seq<CpvInfo>) returns (r: Result<DB, DbError>)
    ensures r.Err? <==> HasDuplicate(infos)
    ensures r.Err? ==> r.error.Duplicate? && SharedSlot(infos, r.error.cp, r.error.slot)
    ensures r.Ok? ==> Lists(infos, r.value)
  {
    var db: DB := map[];
    for i := 0 to |infos|
      invariant Lists(infos[..i], db)
      invariant !HasDuplicate(infos[..i])
    {
      var info := infos[i];
      var rows := RowsIn(db, info.cpv.cp);
      Clash(infos, i, db);
      if info.slot in Slots(rows) {
        return Err(Duplicate(info.cpv.cp, info.slot));
      }
      db := db[info.cpv.cp := rows + [Row(info)]];
    }
    assert infos[..|infos|] == infos;
    r := Ok(db);
  }

  // ------------------------------------------------------------- forward dependencies

  /** What a raw dependency string resolves to. */
  function Resolve(c: Choice, raw: Option<seq<Token>>): Result<set<Dep>, DepError> {
    if raw.None? then Err(Unparsable) else ResolveGroup(c, Parse(raw.value, false, false), false)
  }

  ghost predicate Resolvable(c: Choice, db: DB) {
    forall cp, i :: cp in db && 0 <= i < |db[cp]| ==> Resolve(c, db[cp][i].info.rdepsRaw).Ok?
  }

  /** `now` is `was` with its forward dependencies filled in. */
  ghost predicate Filled(c: Choice, was: Entry, now: Entry) {
    var deps := Resolve(c, was.info.rdepsRaw);
    deps.Ok? && now == was.(info := was.info.(rdeps := was.info.rdeps + deps.value))
  }

  ghost predicate RowFilled(c: Choice, was: seq<Entry>, now: seq<Entry>, n: int) {
    && |was| == |now|
    && (forall i :: 0 <= i < |was| && i < n ==> Filled(c, was[i], now[i]))
    && (forall i :: 0 <= i < |was| && n <= i ==> now[i] == was[i])
  }

  method FillRow(c: Choice, es: seq<Entry>) returns (r: Result<seq<Entry>, DepError>)
    ensures r.Ok? ==> RowFilled(c, es, r.value, |es|)
    ensures r.Err? ==> exists i :: 0 <= i < |es| && Resolve(c, es[i].info.rdepsRaw).Err?
  {
    var now := es;
    for i := 0 to |es|
      invariant RowFilled(c, es, now, i)
    {
      var raw := es[i].info.rdepsRaw;
      if raw.None? {
        return Err(Unparsable);
      }
      var deps := ProcessSubDeps(c, raw.value, false);
      if deps.Err? {
        return Err(deps.error);
      }
      now := now[i := es[i].(info := es[i].info.(rdeps := es[i].info.rdeps + deps.value))];
    }
    r := Ok(now);
  }

  ghost predicate AllFilled(c: Choice, was: DB, now: DB) {
    && now.Keys == was.Keys
    && forall cp :: cp in was ==> RowFilled(c, was[cp], now[cp], |was[cp]|)
  }

  method AddForward(c: Choice, was: DB) returns (r: Result<DB, DepError>)
    ensures r.Ok? <==> Resolvable(c, was)
    ensures r.Ok? ==> AllFilled(c, was, r.value)
  {
    var db := was;
    var todo := was.Keys;
    while todo != {}
      invariant todo <= was.Keys && db.Keys == was.Keys
      invariant forall cp :: cp in was && cp in todo ==> db[cp] == was[cp]
      invariant forall cp :: cp in was && cp !in todo ==> RowFilled(c, was[cp], db[cp], |was[cp]|)
    {
      var cp :| cp in todo;
      var row := FillRow(c, db[cp]);
      if row.Err? {
        assert exists i :: 0 <= i < |was[cp]| && Resolve(c, was[cp][i].info.rdepsRaw).Err?;
        return Err(row.error);
      }
      db := db[cp := row.value];
      todo := todo - {cp};
    }
    forall cp, i | cp in was && 0 <= i < |was[cp]| ensures Resolve(c, was[cp][i].info.rdepsRaw).Ok? {
      assert Filled(c, was[cp][i], db[cp][i]);
    }
    r := Ok(db);
  }

  // ------------------------------------------------------------- reverse dependencies

  function Here(cp: CP, e: Entry): Dep {
    Dep(cp, Some(e.slot))
  }

  /** Whether a dependency asks for the package in a slot. */
  predicate Hits(d: Dep, cp: CP, slot: Slot) {
    d.cp == cp && (Wanted(d) == "" || Wanted(d) == slot)
  }

  /** `now` differs from `was` at most in reverse dependencies. */
  ghost predicate SameButReverse(was: DB, now: DB) {
    && now.Keys == was.Keys
    && forall cp :: cp in was ==>
         && |now[cp]| == |was[cp]|
         && forall i :: 0 <= i < |was[cp]| ==>
              now[cp][i] == was[cp][i].(info := was[cp][i].info.(revRdeps := now[cp][i].info.revRdeps))
  }

  /** The reverse dependencies recorded are the dependency pairs `done`, each at every package it hits. */
  ghost predicate Inverts(db: DB, done: set<(Dep, Dep)>) {
    forall cp, i :: cp in db && 0 <= i < |db[cp]| ==>
      forall x :: x in db[cp][i].info.revRdeps <==> exists d :: (x, d) in done && Hits(d, cp, db[cp][i].slot)
  }

  ghost predicate NoReverse(db: DB) {
    forall cp, i :: cp in db && 0 <= i < |db[cp]| ==> db[cp][i].info.revRdeps == {}
  }

  /** Records that `from` has dependency `d`, at every slot `d` may mean. */
  method AddReverseOf(was: DB, from: Dep, d: Dep, ghost done: set<(Dep, Dep)>) returns (db: DB)
    requires Inverts(was, done)
    ensures SameButReverse(was, db)
    ensures Inverts(db, done + {(from, d)})
  {
    db := was;
    ghost var more := done + {(from, d)};
    if d.cp in was {
      var row := was[d.cp];
      for i := 0 to |row|
        invariant |row| == |was[d.cp]|
        invariant forall j :: 0 <= j < i ==>
          row[j] == if Hits(d, d.cp, was[d.cp][j].slot) then Marked(was[d.cp][j], from) else was[d.cp][j]
        invariant forall j :: i <= j < |row| ==> row[j] == was[d.cp][j]
      {
        if Wanted(d) != "" && row[i].slot != Wanted(d) {
          continue;
        }
        row := row[i := Marked(row[i], from)];
      }
      db := db[d.cp := row];
    }
    forall cp, i | cp in db && 0 <= i < |db[cp]|
      ensures forall x :: x in db[cp][i].info.revRdeps <==> exists e :: (x, e) in more && Hits(e, cp, db[cp][i].slot)
    {
      assert was[cp][i].slot == db[cp][i].slot;
      forall x ensures x in db[cp][i].info.revRdeps <==> exists e :: (x, e) in more && Hits(e, cp, db[cp][i].slot) {
        if exists e :: (x, e) in done && Hits(e, cp, was[cp][i].slot) {
          var e :| (x, e) in done && Hits(e, cp, was[cp][i].slot);
          assert (x, e) in more;
        }
        if x == from && Hits(d, cp, was[cp][i].slot) {
          assert (x, d) in more;
        }
      }
    }
  }

  function Marked(e: Entry, from: Dep): Entry {
    e.(info := e.info.(revRdeps := e.info.revRdeps + {from}))
  }

  /** All dependency pairs of a row, up to entry `n`. */
  ghost function RowPairs(db: DB, cp: CP, n: nat): set<(Dep, Dep)>
    requires cp in db && n <= |db[cp]|
  {
    set i, d | 0 <= i < n && d in db[cp][i].info.rdeps :: (Here(cp, db[cp][i]), d)
  }

  method AddReverseRow(was: DB, cp: CP, ghost done: set<(Dep, Dep)>) returns (db: DB)
    requires cp in was && Inverts(was, done)
    ensures SameButReverse(was, db)
    ensures Inverts(db, done + RowPairs(was, cp, |was[cp]|))
  {
    db := was;
    assert RowPairs(was, cp, 0) == {};
    assert done + RowPairs(was, cp, 0) == done;
    for i := 0 to |was[cp]|
      invariant SameButReverse(was, db)
      invariant Inverts(db, done + RowPairs(was, cp, i))
    {
      var from := Here(cp, was[cp][i]);
      var deps := was[cp][i].info.rdeps;
      ghost var before := done + RowPairs(was, cp, i);
      ghost var pairs: set<(Dep, Dep)> := {};
      assert before + pairs == before;
      while deps != {}
        invariant deps <= was[cp][i].info.rdeps
        invariant SameButReverse(was, db)
        invariant pairs == set d | d in was[cp][i].info.rdeps && d !in deps :: (from, d)
        invariant Inverts(db, before + pairs)
      {
        var d :| d in deps;
        db := AddReverseOf(db, from, d, before + pairs);
        assert before + pairs + {(from, d)} == before + (pairs + {(from, d)});
        deps, pairs := deps - {d}, pairs + {(from, d)};
      }
      assert done + RowPairs(was, cp, i + 1) == before + pairs;
    }
  }

  /** Package `x` has a forward dependency that package (`cp`, `slot`) may satisfy. */
  ghost predicate DependsOnPkg(db: DB, x: Dep, cp: CP, slot: Slot) {
    exists c, i, d :: c in db && 0 <= i < |db[c]| && x == Here(c, db[c][i])
      && d in db[c][i].info.rdeps && Hits(d, cp, slot)
  }

  /** The inverted index: exactly the packages depending on each package. */
  ghost predicate Inverted(db: DB) {
    forall cp, i :: cp in db && 0 <= i < |db[cp]| ==>
      forall x :: x in db[cp][i].info.revRdeps <==> DependsOnPkg(db, x, cp, db[cp][i].slot)
  }

  ghost function PairsOf(db: DB, cps: set<CP>): set<(Dep, Dep)>
    requires cps <= db.Keys
  {
    set cp, i, d | cp in cps && 0 <= i < |db[cp]| && d in db[cp][i].info.rdeps :: (Here(cp, db[cp][i]), d)
  }

  method AddReverse(was: DB) returns (db: DB)
    requires NoReverse(was)
    ensures SameButReverse(was, db)
    ensures Inverted(db)
  {
    db := was;
    var todo := was.Keys;
    assert PairsOf(was, was.Keys - todo) == {};
    while todo != {}
      invariant todo <= was.Keys
      invariant SameButReverse(was, db)
      invariant Inverts(db, PairsOf(was, was.Keys - todo))
    {
      var cp :| cp in todo;
      ghost var before := PairsOf(was, was.Keys - todo);
      ghost var mid := db;
      db := AddReverseRow(db, cp, before);
      assert RowPairs(mid, cp, |mid[cp]|) == RowPairs(was, cp, |was[cp]|);
      assert PairsOf(was, was.Keys - (todo - {cp})) == before + RowPairs(was, cp, |was[cp]|);
      todo := todo - {cp};
    }
    InvertsAll(was, db);
  }

  lemma InvertsAll(was: DB, db: DB)
    requires SameButReverse(was, db) && Inverts(db, PairsOf(was, was.Keys - {}))
    ensures Inverted(db)
  {
    forall cp, i, x | cp in db && 0 <= i < |db[cp]|
      ensures x in db[cp][i].info.revRdeps <==> DependsOnPkg(db, x, cp, db[cp][i].slot)
    {
      var slot := db[cp][i].slot;
      if x in db[cp][i].info.revRdeps {
        var d :| (x, d) in PairsOf(was, was.Keys - {}) && Hits(d, cp, slot);
        var c, j :| c in was && 0 <= j < |was[c]| && d in was[c][j].info.rdeps && x == Here(c, was[c][j]);
        assert x == Here(c, db[c][j]) && d in db[c][j].info.rdeps;
      }
      if DependsOnPkg(db, x, cp, slot) {
        var c, j, d :| c in db && 0 <= j < |db[c]| && x == Here(c, db[c][j]) && d in db[c][j].info.rdeps && Hits(d, cp, slot);
        assert x == Here(c, was[c][j]) && d in was[c][j].info.rdeps;
        assert (x, d) in PairsOf(was, was.Keys - {});
      }
    }
  }

  // ------------------------------------------------------------- the whole database

  /** Choices are judged against the installed packages if given, else against the database being built. */
  function ChoiceFor(db: DB, installed: Option<DB>): Choice {
    if installed.Some? then Choice(IndexOf(installed.value), Some(IndexOf(db)))
    else Choice(IndexOf(db), None)
  }

  /** The database of the listed packages before any dependency is filled in. */
  ghost function Plain(infos: seq<CpvInfo>): (db: DB)
    ensures Lists(infos, db)
    ensures forall other :: Lists(infos, other) ==> other == db
  {
    var db := map i | 0 <= i < |infos| :: infos[i].cpv.cp := Rows(infos, infos[i].cpv.cp);
    db
  }

  /** No two packages share a slot, and all dependency strings resolve if they have to. */
  ghost predicate Buildable(infos: seq<CpvInfo>, rdeps: bool, installed: Option<DB>) {
    !HasDuplicate(infos) && (rdeps ==> Resolvable(ChoiceFor(Plain(infos), installed), Plain(infos)))
  }

  /** Rows, slots, versions and raw strings agree; forward dependencies are what they resolve to. */
  ghost predicate Built(infos: seq<CpvInfo>, rdeps: bool, installed: Option<DB>, db: DB) {
    exists mid :: SameButReverse(mid, db) &&
      if rdeps then AllFilled(ChoiceFor(Plain(infos), installed), Plain(infos), mid) else mid == Plain(infos)
  }

  /** Every row of a CP holds packages of that CP. */
  ghost predicate Keyed(db: DB) {
    forall cp, i :: cp in db && 0 <= i < |db[cp]| ==> db[cp][i].info.cpv.cp == cp
  }

  method BuildDB(infos: seq<CpvInfo>, rdeps: bool, revRdeps: bool, installed: Option<DB>)
    returns (r: Result<DB, DbError>)
    ensures r.Ok? <==> Buildable(infos, rdeps, installed)
    ensures r.Err? ==> (r.error.Duplicate? <==> HasDuplicate(infos))
    ensures r.Err? && r.error.Duplicate? ==> SharedSlot(infos, r.error.cp, r.error.slot)
    ensures r.Ok? ==> Built(infos, rdeps, installed, r.value) && Keyed(r.value)
    ensures r.Ok? ==> if revRdeps then Inverted(r.value) else NoReverse(r.value)
  {
    var laid := Layout(infos);
    if laid.Err? {
      return laid;
    }
    var db := laid.value;
    assert db == Plain(infos);
    ListsNoReverse(infos, db);
    if rdeps {
      var filled := AddForward(ChoiceFor(db, installed), db);
      if filled.Err? {
        return Err(BadDeps(filled.error));
      }
      FilledNoReverse(ChoiceFor(db, installed), db, filled.value);
      db := filled.value;
    }
    ghost var mid := db;
    if revRdeps {
      db := AddReverse(db);
    }
    assert SameButReverse(mid, db);
    r := Ok(db);
  }

  lemma ListsNoReverse(infos: seq<CpvInfo>, db: DB)
    requires Lists(infos, db)
    ensures NoReverse(db) && Keyed(db)
  {
    forall cp, i | cp in db && 0 <= i < |db[cp]|
      ensures db[cp][i].info.revRdeps == {} && db[cp][i].info.cpv.cp == cp
    {
      RowsSlots(infos, cp);
      var e := db[cp][i];
      assert e in Rows(infos, cp);
    }
  }

  lemma FilledNoReverse(c: Choice, was: DB, now: DB)
    requires NoReverse(was) && Keyed(was) && AllFilled(c, was, now)
    ensures NoReverse(now) && Keyed(now)
  {
    forall cp, i | cp in now && 0 <= i < |now[cp]|
      ensures now[cp][i].info.revRdeps == {} && now[cp][i].info.cpv.cp == cp
    {
      assert Filled(c, was[cp][i], now[cp][i]);
    }
  }
}
