/**
  Resolution of a dependency string of a package.  The string is given as its
  nested token list; each atom is already stripped to a package and a slot.
 */
module DependencyTrees {
  import opened Basics

  /** Category and package name. */
  type CP = string
  type Slot = string

  datatype Dep = Dep(cp: CP, slot: Option<Slot>)

  /** Which slots of which packages a database holds. */
  type Index = map<CP, set<Slot>>

  datatype Token =
    | Group(items: seq<Token>)
    | Or
    | Conditional
    | Atom(dep: Option<Dep>)    // None: a blocker that is ignored

  datatype DepError = MalformedDisjunction | HasConditional | IgnoredInDisjunction | Unparsable

  /** The databases choices are judged against. */
  datatype Choice = Choice(installed: Index, avail: Option<Index>)

  /** The slot asked for; the empty slot stands for any. */
  function Wanted(d: Dep): Slot {
    if d.slot.Some? then d.slot.value else ""
  }

  predicate InDB(d: Dep, db: Index) {
    d.cp in db && (Wanted(d) == "" || Wanted(d) in db[d.cp])
  }

  // ------------------------------------------------------- the expression behind the tokens

  datatype Expr =
    | Leaf(dep: Dep)
    | Nothing
    | All(parts: seq<Expr>)
    | Any(alts: seq<Expr>)

  /** The grammar: `||` turns the group after it into alternatives, and nothing else may follow it. */
  function Parse(items: seq<Token>, pending: bool, disjunct: bool): Result<seq<Expr>, DepError>
    decreases items
  {
    if items == [] then Ok([])
    else
      match items[0]
      case Group(g) =>
        var inner := Parse(g, false, pending);
        if inner.Err? then inner
        else Cons(if pending then Any(inner.value) else All(inner.value), Parse(items[1..], false, disjunct))
      case Or => if pending then Err(MalformedDisjunction) else Parse(items[1..], true, disjunct)
      case Conditional => Err(if pending then MalformedDisjunction else HasConditional)
      case Atom(d) =>
        if pending then Err(MalformedDisjunction)
        else if d.Some? then Cons(Leaf(d.value), Parse(items[1..], false, disjunct))
        else if disjunct then Err(IgnoredInDisjunction)
        else Cons(Nothing, Parse(items[1..], false, disjunct))
  }

  function Cons(e: Expr, rest: Result<seq<Expr>, DepError>): Result<seq<Expr>, DepError> {
    if rest.Ok? then Ok([e] + rest.value) else rest
  }

  // ------------------------------------------------------------ what a choice resolves to

  predicate AllIn(ds: set<Dep>, db: Index) {
    forall d :: d in ds ==> InDB(d, db)
  }

  /** The dependencies an expression asks for. */
  function Need(c: Choice, e: Expr): set<Dep>
    decreases e, 1
  {
    match e
    case Leaf(d) => {d}
    case Nothing => {}
    case All(parts) => NeedAll(c, parts)
    case Any(alts) => Choose(c, alts)
  }

  function NeedAll(c: Choice, parts: seq<Expr>): set<Dep>
    decreases parts, 0
  {
    if parts == [] then {} else NeedAll(c, parts[..|parts| - 1]) + Need(c, parts[|parts| - 1])
  }

  /** All alternatives that are fully installed, or else the first one that can be installed. */
  function Choose(c: Choice, alts: seq<Expr>): set<Dep>
    decreases alts, 1
  {
    if Installed(c, alts) != {} then Installed(c, alts) else FirstAvailable(c, alts)
  }

  function Installed(c: Choice, alts: seq<Expr>): set<Dep>
    decreases alts, 0
  {
    if alts == [] then {}
    else
      var last := Need(c, alts[|alts| - 1]);
      Installed(c, alts[..|alts| - 1]) + (if AllIn(last, c.installed) then last else {})
  }

  function FirstAvailable(c: Choice, alts: seq<Expr>): set<Dep>
    decreases alts, 0
  {
    if alts == [] then {}
    else
      var before := FirstAvailable(c, alts[..|alts| - 1]);
      var last := Need(c, alts[|alts| - 1]);
      if before == {} && c.avail.Some? && AllIn(last, c.avail.value) then last else before
  }

  // ------------------------------------------------------------------- meaning

  /** The packages `have` satisfy the expression. */
  ghost predicate Sat(have: set<Dep>, e: Expr) {
    match e
    case Leaf(d) => d in have
    case Nothing => true
    case All(parts) => forall p :: p in parts ==> Sat(have, p)
    case Any(alts) => exists a :: a in alts && Sat(have, a)
  }

  ghost function Atoms(e: Expr): set<Dep>
    decreases e
  {
    match e
    case Leaf(d) => {d}
    case Nothing => {}
    case All(parts) => set p, d | p in parts && d in Atoms(p) :: d
    case Any(alts) => set a, d | a in alts && d in Atoms(a) :: d
  }

  /** No disjunction in the expression resolves to nothing. */
  ghost predicate NoEmptyChoice(c: Choice, e: Expr) {
    match e
    case Leaf(_) => true
    case Nothing => true
    case All(parts) => forall p :: p in parts ==> NoEmptyChoice(c, p)
    case Any(alts) => Choose(c, alts) != {} && forall a :: a in alts ==> NoEmptyChoice(c, a)
  }

  lemma {:induction false} NeedAllIsUnion(c: Choice, parts: seq<Expr>)
    ensures forall d :: d in NeedAll(c, parts) <==> exists p :: p in parts && d in Need(c, p)
    decreases |parts|
  {
    if parts != [] {
      var init, last := parts[..|parts| - 1], parts[|parts| - 1];
      NeedAllIsUnion(c, init);
      assert parts == init + [last];
      assert last in parts;
      assert forall p :: p in parts <==> p in init || p == last;
    }
  }

  lemma {:induction false} InstalledIsUnion(c: Choice, alts: seq<Expr>)
    ensures forall d :: d in Installed(c, alts) <==>
              exists a :: a in alts && AllIn(Need(c, a), c.installed) && d in Need(c, a)
    decreases |alts|
  {
    if alts != [] {
      var init, last := alts[..|alts| - 1], alts[|alts| - 1];
      InstalledIsUnion(c, init);
      assert alts == init + [last];
      assert last in alts;
      assert forall a :: a in alts <==> a in init || a == last;
    }
  }

  /** `i` is the first alternative that is not empty and fully available. */
  ghost predicate IsFirstAvailable(c: Choice, alts: seq<Expr>, i: int) {
    && 0 <= i < |alts| && c.avail.Some?
    && Usable(c, alts[i])
    && forall j :: 0 <= j < i ==> !Usable(c, alts[j])
  }

  ghost predicate Usable(c: Choice, e: Expr) {
    Need(c, e) != {} && c.avail.Some? && AllIn(Need(c, e), c.avail.value)
  }

  lemma {:induction false} FirstAvailableIsFirst(c: Choice, alts: seq<Expr>)
    ensures if FirstAvailable(c, alts) == {} then forall j :: 0 <= j < |alts| ==> !Usable(c, alts[j])
            else exists i :: IsFirstAvailable(c, alts, i) && FirstAvailable(c, alts) == Need(c, alts[i])
    decreases |alts|
  {
    if alts != [] {
      var init, last := alts[..|alts| - 1], alts[|alts| - 1];
      FirstAvailableIsFirst(c, init);
      if FirstAvailable(c, init) != {} {
        var i :| IsFirstAvailable(c, init, i) && FirstAvailable(c, init) == Need(c, init[i]);
        assert forall j :: 0 <= j < |init| ==> init[j] == alts[j];
        assert IsFirstAvailable(c, alts, i);
      } else {
        assert forall j :: 0 <= j < |init| ==> !Usable(c, init[j]) && init[j] == alts[j];
        if FirstAvailable(c, alts) != {} {
          assert IsFirstAvailable(c, alts, |init|);
        }
      }
    }
  }

  /**
    What a disjunction resolves to: the union of its fully installed
    alternatives if that is not empty, else its first non-empty fully
    available alternative, else nothing.
   */
  lemma ChoiceIsInstalledElseFirstAvailable(c: Choice, alts: seq<Expr>)
    ensures var r := Need(c, Any(alts));
      if exists a :: a in alts && Need(c, a) != {} && AllIn(Need(c, a), c.installed) then
        forall d :: d in r <==> exists a :: a in alts && AllIn(Need(c, a), c.installed) && d in Need(c, a)
      else if exists i :: IsFirstAvailable(c, alts, i) then
        exists i :: IsFirstAvailable(c, alts, i) && r == Need(c, alts[i])
      else r == {}
  {
    InstalledIsUnion(c, alts);
    FirstAvailableIsFirst(c, alts);
    if a :| a in alts && Need(c, a) != {} && AllIn(Need(c, a), c.installed) {
      var d :| d in Need(c, a);
      assert d in Installed(c, alts);
    } else if i :| IsFirstAvailable(c, alts, i) {
      assert Installed(c, alts) == {};
      assert Usable(c, alts[i]);
    } else {
      assert Installed(c, alts) == {};
    }
  }

  /** The database has a package for each dependency, in the slot asked for if one is. */
  ghost predicate Holds(db: Index, ds: set<Dep>) {
    forall d :: d in ds ==>
      d.cp in db && match d.slot
                    case None => true
                    case Some(slot) => slot == "" || slot in db[d.cp]
  }

  lemma HoldsIsAllIn(db: Index, ds: set<Dep>)
    ensures Holds(db, ds) <==> AllIn(ds, db)
  {
    if Holds(db, ds) {
      forall d | d in ds ensures InDB(d, db) {
      }
    }
    if AllIn(ds, db) {
      forall d | d in ds ensures d.cp in db && (d.slot.Some? ==> d.slot.value == "" || d.slot.value in db[d.cp]) {
        assert InDB(d, db);
      }
    }
  }

  /** Resolution invents no dependency. */
  lemma {:induction false} NeedOnlyAtoms(c: Choice, e: Expr)
    ensures Need(c, e) <= Atoms(e)
    decreases e
  {
    match e
    case Leaf(_) =>
    case Nothing =>
    case All(parts) =>
      NeedAllIsUnion(c, parts);
      assert Need(c, e) == NeedAll(c, parts);
      forall d | d in Need(c, e) ensures d in Atoms(e) {
        var p :| p in parts && d in Need(c, p);
        NeedOnlyAtoms(c, p);
      }
    case Any(alts) =>
      ChoiceIsInstalledElseFirstAvailable(c, alts);
      forall d | d in Need(c, e) ensures d in Atoms(e) {
        var a := ChosenAlternative(c, alts, d);
        NeedOnlyAtoms(c, a);
      }
  }

  /** Every dependency a disjunction resolves to comes from an alternative taken as a whole. */
  lemma ChosenAlternative(c: Choice, alts: seq<Expr>, d: Dep) returns (a: Expr)
    requires d in Choose(c, alts)
    ensures a in alts && d in Need(c, a) && Need(c, a) <= Choose(c, alts)
  {
    InstalledIsUnion(c, alts);
    FirstAvailableIsFirst(c, alts);
    if Installed(c, alts) != {} {
      a :| a in alts && AllIn(Need(c, a), c.installed) && d in Need(c, a);
    } else {
      var i :| IsFirstAvailable(c, alts, i) && FirstAvailable(c, alts) == Need(c, alts[i]);
      a := alts[i];
    }
  }

  lemma {:induction false} SatMonotone(small: set<Dep>, big: set<Dep>, e: Expr)
    requires small <= big && Sat(small, e)
    ensures Sat(big, e)
    decreases e
  {
    match e
    case Leaf(_) =>
    case Nothing =>
    case All(parts) =>
      forall p | p in parts ensures Sat(big, p) {
        SatMonotone(small, big, p);
      }
    case Any(alts) =>
      var a :| a in alts && Sat(small, a);
      SatMonotone(small, big, a);
  }

  /** Unless some disjunction resolves to nothing, the resolved set satisfies the whole and/or expression. */
  lemma {:induction false} NeedSatisfies(c: Choice, e: Expr)
    requires NoEmptyChoice(c, e)
    ensures Sat(Need(c, e), e)
    decreases e
  {
    match e
    case Leaf(_) =>
    case Nothing =>
    case All(parts) =>
      NeedAllIsUnion(c, parts);
      assert Need(c, e) == NeedAll(c, parts);
      forall p | p in parts ensures Sat(Need(c, e), p) {
        NeedSatisfies(c, p);
        SatMonotone(Need(c, p), Need(c, e), p);
      }
    case Any(alts) =>
      var d :| d in Choose(c, alts);
      var a := ChosenAlternative(c, alts, d);
      NeedSatisfies(c, a);
      SatMonotone(Need(c, a), Need(c, e), a);
  }

  /** An alternative that asks for something, and for nothing that is not installed, or not available. */
  ghost predicate Eligible(c: Choice, e: Expr) {
    Need(c, e) != {} && (AllIn(Need(c, e), c.installed) || Usable(c, e))
  }

  /** Some alternative is taken as a whole that hides no empty choice. */
  ghost predicate TakesSound(c: Choice, alts: seq<Expr>) {
    exists a :: a in alts && Need(c, a) <= Choose(c, alts) && NoEmptyChoice(c, a)
  }

  /**
    A disjunction that is met has an alternative that is eligible or needs
    nothing at all, and the converse holds unless all that is taken hides an
    empty choice.
   */
  lemma ChoiceIsMetExactlyWhen(c: Choice, alts: seq<Expr>)
    ensures Sat(Need(c, Any(alts)), Any(alts)) ==> exists a :: a in alts && (Eligible(c, a) || Sat({}, a))
    ensures Choose(c, alts) == {} || TakesSound(c, alts) ==>
              (Sat(Need(c, Any(alts)), Any(alts)) <==> exists a :: a in alts && (Eligible(c, a) || Sat({}, a)))
  {
    ResolvesExactlyWhen(c, alts);
    if TakesSound(c, alts) {
      var a :| a in alts && Need(c, a) <= Choose(c, alts) && NoEmptyChoice(c, a);
      NeedSatisfies(c, a);
      SatMonotone(Need(c, a), Choose(c, alts), a);
    }
  }

  /** A disjunction resolves to something exactly when an alternative is eligible. */
  lemma ResolvesExactlyWhen(c: Choice, alts: seq<Expr>)
    ensures Choose(c, alts) != {} <==> exists a :: a in alts && Eligible(c, a)
  {
    FirstAvailableIsFirst(c, alts);
    InstalledIsUnion(c, alts);
    if a :| a in alts && Eligible(c, a) {
      if AllIn(Need(c, a), c.installed) {
        var d :| d in Need(c, a);
        assert d in Installed(c, alts);
      } else {
        var j :| 0 <= j < |alts| && alts[j] == a;
        assert Usable(c, alts[j]);
      }
    }
    if Installed(c, alts) != {} {
      var d :| d in Installed(c, alts);
    } else if FirstAvailable(c, alts) != {} {
      var i :| IsFirstAvailable(c, alts, i);
      var a := alts[i];
      assert a in alts && Usable(c, a);
    }
  }

  /** A disjunction without eligible alternative is dropped: the rest of the expression resolves as if it were not there. */
  lemma UnmetChoiceIsDropped(c: Choice, alts: seq<Expr>, before: seq<Expr>, after: seq<Expr>)
    requires forall a :: a in alts ==> !Eligible(c, a)
    ensures Need(c, Any(alts)) == {}
    ensures Need(c, All(before + [Any(alts)] + after)) == Need(c, All(before + after))
    ensures Sat({}, Any(alts)) <==> exists a :: a in alts && Sat({}, a)
  {
    ResolvesExactlyWhen(c, alts);
    var with, without := before + [Any(alts)] + after, before + after;
    assert forall p :: p in with <==> p in without || p == Any(alts);
    NeedAllIsUnion(c, with);
    NeedAllIsUnion(c, without);
    assert Need(c, All(with)) == NeedAll(c, with) && Need(c, All(without)) == NeedAll(c, without);
  }

  /** An unmet disjunction is dropped in silence: nothing is asked for, and nothing is satisfied. */
  lemma EmptyChoiceIsUnmet(a: Dep, b: Dep)
    ensures var c := Choice(map[], None);
            var e := All([Any([Leaf(a), Leaf(b)])]);
            Parse([Or, Group([Atom(Some(a)), Atom(Some(b))])], false, false) == Ok([Any([Leaf(a), Leaf(b)])])
            && Need(c, e) == {} && !Sat(Need(c, e), e)
  {
    var c := Choice(map[], None);
    var alts := [Leaf(a), Leaf(b)];
    var items := [Or, Group([Atom(Some(a)), Atom(Some(b))])];
    var inner := [Atom(Some(a)), Atom(Some(b))];
    assert inner[1..] == [Atom(Some(b))] && inner[1..][1..] == [];
    assert Parse([], false, true) == Ok([]) && Parse([], false, false) == Ok([]);
    assert [Leaf(b)] + [] == [Leaf(b)] && [Leaf(a)] + [Leaf(b)] == alts && [Any(alts)] + [] == [Any(alts)];
    assert Parse(inner[1..], false, true) == Cons(Leaf(b), Ok([]));
    assert Parse(inner, false, true) == Cons(Leaf(a), Ok([Leaf(b)]));
    assert items[1..] == [Group(inner)] && items[1..][1..] == [];
    assert Parse(items[1..], true, false) == Cons(Any(alts), Ok([]));
    InstalledIsUnion(c, alts);
    FirstAvailableIsFirst(c, alts);
    assert Need(c, Leaf(a)) == {a} && Need(c, Leaf(b)) == {b};
    assert a in Need(c, Leaf(a)) && b in Need(c, Leaf(b));
    assert !InDB(a, c.installed) && !InDB(b, c.installed);
    assert Choose(c, alts) == {};
    NeedAllIsUnion(c, [Any(alts)]);
    assert Need(c, All([Any(alts)])) == NeedAll(c, [Any(alts)]) == {};
    assert !Sat({}, Any(alts));
    assert Any(alts) in [Any(alts)];
  }

  // ------------------------------------------------------------ what the tokens mean

  /** The tokens of a list of expressions. */
  function Tokens(es: seq<Expr>): seq<Token>
    decreases es, 1
  {
    if es == [] then [] else TokensOf(es[0]) + Tokens(es[1..])
  }

  function TokensOf(e: Expr): seq<Token>
    decreases e, 0
  {
    match e
    case Leaf(d) => [Atom(Some(d))]
    case Nothing => [Atom(None)]
    case All(parts) => [Group(Tokens(parts))]
    case Any(alts) => [Or, Group(Tokens(alts))]
  }

  /** No ignored atom stands directly in a disjunction. */
  predicate Sound(es: seq<Expr>, disjunct: bool)
    decreases es, 1
  {
    es != [] ==> SoundOf(es[0], disjunct) && Sound(es[1..], disjunct)
  }

  predicate SoundOf(e: Expr, disjunct: bool)
    decreases e, 0
  {
    match e
    case Leaf(_) => true
    case Nothing => !disjunct
    case All(parts) => Sound(parts, false)
    case Any(alts) => Sound(alts, true)
  }

  /** Reading the tokens of a list of expressions gives these expressions. */
  lemma {:induction false} ParseTokens(es: seq<Expr>, rest: seq<Token>, disjunct: bool)
    requires Sound(es, disjunct)
    ensures Parse(Tokens(es) + rest, false, disjunct) == Join(es, Parse(rest, false, disjunct))
    decreases es, 1
  {
    var tail := Parse(rest, false, disjunct);
    if es == [] {
      assert Tokens(es) + rest == rest;
      assert tail.Ok? ==> [] + tail.value == tail.value;
    } else {
      var e, more := es[0], es[1..];
      assert Tokens(es) + rest == TokensOf(e) + (Tokens(more) + rest);
      ParseTokens(more, rest, disjunct);
      ParseTokensOf(e, Tokens(more) + rest, disjunct);
      assert tail.Ok? ==> [e] + (more + tail.value) == es + tail.value;
    }
  }

  lemma {:induction false} ParseTokensOf(e: Expr, rest: seq<Token>, disjunct: bool)
    requires SoundOf(e, disjunct)
    ensures Parse(TokensOf(e) + rest, false, disjunct) == Cons(e, Parse(rest, false, disjunct))
    decreases e, 0
  {
    var items := TokensOf(e) + rest;
    match e
    case Leaf(d) => assert items[1..] == rest;
    case Nothing => assert items[1..] == rest;
    case All(parts) =>
      assert items[1..] == rest;
      ParseGroup(parts, false);
    case Any(alts) =>
      assert items[1..] == [Group(Tokens(alts))] + rest && items[1..][1..] == rest;
      ParseGroup(alts, true);
  }

  lemma {:induction false} ParseGroup(es: seq<Expr>, disjunct: bool)
    requires Sound(es, disjunct)
    ensures Parse(Tokens(es), false, disjunct) == Ok(es)
    decreases es, 2
  {
    ParseTokens(es, [], disjunct);
    assert Tokens(es) + [] == Tokens(es) && es + [] == es;
  }

  /**
    Some token is out of place: something other than a group after `||`, a
    conditional, an ignored atom directly in a disjunction, or such a token
    within a group.  `pending` tells whether `||` comes before the first token.
   */
  ghost predicate Misplaced(items: seq<Token>, pending: bool, disjunct: bool)
    decreases items, 1
  {
    exists i :: 0 <= i < |items| && MisplacedAt(items, pending, disjunct, i)
  }

  ghost predicate MisplacedAt(items: seq<Token>, pending: bool, disjunct: bool, i: nat)
    requires i < |items|
    decreases items, 0
  {
    var afterOr := if i == 0 then pending else items[i - 1].Or?;
    match items[i]
    case Group(g) => Misplaced(g, false, afterOr)
    case Or => afterOr
    case Conditional => true
    case Atom(d) => afterOr || (d.None? && disjunct)
  }

  lemma MisplacedLater(items: seq<Token>, pending: bool, disjunct: bool)
    requires items != []
    ensures Misplaced(items, pending, disjunct) <==>
              MisplacedAt(items, pending, disjunct, 0) || Misplaced(items[1..], items[0].Or?, disjunct)
  {
    var rest := items[1..];
    forall i | 0 <= i < |rest| ensures MisplacedAt(rest, items[0].Or?, disjunct, i) <==> MisplacedAt(items, pending, disjunct, i + 1) {
    }
    if i :| 0 <= i < |items| && MisplacedAt(items, pending, disjunct, i) {
      assert i > 0 ==> MisplacedAt(rest, items[0].Or?, disjunct, i - 1);
    }
    if i :| 0 <= i < |rest| && MisplacedAt(rest, items[0].Or?, disjunct, i) {
      assert MisplacedAt(items, pending, disjunct, i + 1);
    }
  }

  /** Reading fails if and only if some token is out of place. */
  lemma {:induction false} ParseFailsExactlyWhen(items: seq<Token>, pending: bool, disjunct: bool)
    ensures Parse(items, pending, disjunct).Err? <==> Misplaced(items, pending, disjunct)
    decreases items
  {
    if items != [] {
      MisplacedLater(items, pending, disjunct);
      if items[0].Group? {
        ParseFailsExactlyWhen(items[0].items, false, pending);
      }
      ParseFailsExactlyWhen(items[1..], items[0].Or?, disjunct);
    }
  }

  /** Without the `||` that stand at the end of a list, which have no effect. */
  function Trim(items: seq<Token>): seq<Token>
    decreases items
  {
    if items == [] || items == [Or] then []
    else
      var t := items[0];
      [if t.Group? then Group(Trim(t.items)) else t] + Trim(items[1..])
  }

  /** `es` is what the tokens say, after a `||` if `pending`. */
  ghost predicate IsRead(items: seq<Token>, pending: bool, disjunct: bool, es: seq<Expr>) {
    && Sound(es, disjunct)
    && (!pending ==> Tokens(es) == Trim(items))
    && (pending && items != [] ==> Tokens(es) == [Or] + Trim(items))
    && (pending && items == [] ==> es == [])
  }

  lemma ReadGroup(items: seq<Token>, pending: bool, disjunct: bool, inner: seq<Expr>, rest: seq<Expr>)
    requires items != [] && items[0].Group?
    requires IsRead(items[0].items, false, pending, inner) && IsRead(items[1..], false, disjunct, rest)
    ensures IsRead(items, pending, disjunct, [if pending then Any(inner) else All(inner)] + rest)
  {
    ReadHead(if pending then Any(inner) else All(inner), rest);
  }

  /** What is read without failing is what the tokens say, but for such `||`. */
  lemma {:induction false} ParseReads(items: seq<Token>, pending: bool, disjunct: bool)
    requires Parse(items, pending, disjunct).Ok?
    ensures IsRead(items, pending, disjunct, Parse(items, pending, disjunct).value)
    decreases items
  {
    if items != [] {
      var t, rest := items[0], items[1..];
      match t
      case Group(g) =>
        ParseReads(g, false, pending);
        ParseReads(rest, false, disjunct);
        ReadGroup(items, pending, disjunct, Parse(g, false, pending).value, Parse(rest, false, disjunct).value);
      case Or =>
        ParseReads(rest, true, disjunct);
      case Conditional =>
      case Atom(d) =>
        ParseReads(rest, false, disjunct);
        ReadHead(if d.Some? then Leaf(d.value) else Nothing, Parse(rest, false, disjunct).value);
    }
  }

  lemma ReadHead(e: Expr, rest: seq<Expr>)
    ensures Tokens([e] + rest) == TokensOf(e) + Tokens(rest)
    ensures forall disjunct :: Sound([e] + rest, disjunct) <==> SoundOf(e, disjunct) && Sound(rest, disjunct)
  {
    assert ([e] + rest)[1..] == rest;
  }

  /** The tokens are those of one list of expressions only. */
  lemma TokensDecide(es: seq<Expr>, es': seq<Expr>, disjunct: bool)
    requires Sound(es, disjunct) && Sound(es', disjunct) && Tokens(es) == Tokens(es')
    ensures es == es'
  {
    ParseGroup(es, disjunct);
    ParseGroup(es', disjunct);
  }

  /** `deps` is what the expressions in the tokens ask for, taken together or as alternatives. */
  ghost predicate Resolves(c: Choice, items: seq<Token>, disjunct: bool, deps: set<Dep>) {
    exists es :: Sound(es, disjunct) && Tokens(es) == Trim(items) && deps == Need(c, if disjunct then Any(es) else All(es))
  }

  lemma GroupResolves(c: Choice, items: seq<Token>, disjunct: bool)
    ensures var r := ResolveGroup(c, Parse(items, false, disjunct), disjunct);
      && (r.Err? <==> Misplaced(items, false, disjunct))
      && (r.Ok? ==> Resolves(c, items, disjunct, r.value))
  {
    ParseFailsExactlyWhen(items, false, disjunct);
    if Parse(items, false, disjunct).Ok? {
      ParseReads(items, false, disjunct);
      var es := Parse(items, false, disjunct).value;
      assert Need(c, Any(es)) == Choose(c, es) && Need(c, All(es)) == NeedAll(c, es);
      assert Sound(es, disjunct) && Tokens(es) == Trim(items);
    }
  }

  // ------------------------------------------------------------ the resolving loop

  function ResolveGroup(c: Choice, es: Result<seq<Expr>, DepError>, disjunct: bool): Result<set<Dep>, DepError> {
    if es.Err? then Err(es.error)
    else if disjunct then Ok(Choose(c, es.value))
    else Ok(NeedAll(c, es.value))
  }

  ghost function Join(done: seq<Expr>, rest: Result<seq<Expr>, DepError>): Result<seq<Expr>, DepError> {
    if rest.Ok? then Ok(done + rest.value) else rest
  }

  lemma JoinCons(done: seq<Expr>, e: Expr, rest: Result<seq<Expr>, DepError>)
    ensures Join(done, Cons(e, rest)) == Join(done + [e], rest)
  {
    if rest.Ok? {
      assert done + ([e] + rest.value) == (done + [e]) + rest.value;
    }
  }

  /** What the loop has gathered: dependencies so far, and the default choice. */
  datatype Gathered = Gathered(deps: set<Dep>, default: set<Dep>)

  function Gather(c: Choice, done: seq<Expr>, disjunct: bool): Gathered {
    if disjunct then Gathered(Installed(c, done), FirstAvailable(c, done))
    else Gathered(NeedAll(c, done), {})
  }

  /** Adds the dependencies of one more element. */
  method Absorb(c: Choice, g: Gathered, sub: set<Dep>, disjunct: bool, ghost done: seq<Expr>, ghost e: Expr)
    returns (r: Gathered)
    requires g == Gather(c, done, disjunct) && sub == Need(c, e)
    ensures r == Gather(c, done + [e], disjunct)
  {
    assert (done + [e])[..|done + [e]| - 1] == done;
    if !disjunct {
      return g.(deps := g.deps + sub);
    }
    var default := g.default;
    if default == {} && c.avail.Some? && AllIn(sub, c.avail.value) {
      default := sub;
    }
    r := Gathered(if AllIn(sub, c.installed) then g.deps + sub else g.deps, default);
  }

  /**
    Works on the tokens directly, keeping only the installed union and the
    default choice; agrees with parsing first and choosing afterwards.
   */
  method ProcessSubDeps(c: Choice, items: seq<Token>, disjunct: bool) returns (r: Result<set<Dep>, DepError>)
    ensures r == ResolveGroup(c, Parse(items, false, disjunct), disjunct)
    ensures r.Err? <==> Misplaced(items, false, disjunct)
    ensures r.Ok? ==> Resolves(c, items, disjunct, r.value)
    decreases items
  {
    GroupResolves(c, items, disjunct);
    var g := Gathered({}, {});
    var pending := false;
    ghost var done: seq<Expr> := [];
    ghost var whole := Parse(items, false, disjunct);
    assert items[0..] == items;
    assert whole.Ok? ==> [] + whole.value == whole.value;
    for i := 0 to |items|
      invariant whole == Join(done, Parse(items[i..], pending, disjunct))
      invariant g == Gather(c, done, disjunct)
    {
      var t := items[i];
      assert items[i..][0] == t && items[i..][1..] == items[i + 1..];
      ghost var rest := Parse(items[i + 1..], false, disjunct);
      match t {
        case Group(sub) =>
          var inner := ProcessSubDeps(c, sub, pending);
          if inner.Err? {
            return inner;
          }
          ghost var parsed := Parse(sub, false, pending).value;
          ghost var e := if pending then Any(parsed) else All(parsed);
          JoinCons(done, e, rest);
          g := Absorb(c, g, inner.value, disjunct, done, e);
          done := done + [e];
          pending := false;
        case Or =>
          if pending {
            return Err(MalformedDisjunction);
          }
          pending := true;
        case Conditional =>
          return Err(if pending then MalformedDisjunction else HasConditional);
        case Atom(d) =>
          if pending {
            return Err(MalformedDisjunction);
          }
          if d.None? && disjunct {
            return Err(IgnoredInDisjunction);
          }
          ghost var e := if d.Some? then Leaf(d.value) else Nothing;
          JoinCons(done, e, rest);
          g := Absorb(c, g, if d.Some? then {d.value} else {}, disjunct, done, e);
          done := done + [e];
      }
    }
    assert items[|items|..] == [];
    assert done + [] == done;
    r := Ok(if g.deps != {} then g.deps else g.default);
  }
}
