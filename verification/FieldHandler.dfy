/**
  Moving the paths of a request message into the chroot and restoring them:
  extraction of handlers from a message tree, transfer, and clean-up.
 */
module FieldHandler {
  import opened Basics

  /** `Unset` is the zero value of the location field. */
  datatype Location = Unset | Inside | Outside

  datatype PathValue = PathValue(path: string, location: Location)

  /** A Path message; handlers rewrite it in place. */
  class PathMessage {
    var path: string
    var location: Location

    constructor (v: PathValue)
      ensures Value() == v
    {
      path, location := v.path, v.location;
    }

    function Value(): PathValue
      reads this
    {
      PathValue(path, location)
    }

    method CopyFrom(v: PathValue)
      modifies this
      ensures Value() == v
    {
      path, location := v.path, v.location;
    }
  }

  /** A message by its fields; path and result-path messages are recognized by type. */
  datatype Message = PathField(p: PathMessage) | ResultPath(inner: seq<Field>) | Node(fields: seq<Field>)

  /** Iterating over a map field yields its keys, so the messages among its values are not met. */
  datatype Field = Scalar | Single(m: Message) | Repeated(ms: seq<Message>) | MapField(values: seq<Message>)

  // ------------------------------------------------------------- the paths of a message

  function AllPaths(m: Message): seq<PathMessage>
    decreases m
  {
    match m
    case PathField(p) => [p]
    case ResultPath(fs) => AllInFields(fs)
    case Node(fs) => AllInFields(fs)
  }

  function AllInFields(fs: seq<Field>): seq<PathMessage>
    decreases fs
  {
    if fs == [] then [] else AllInFields(fs[..|fs| - 1]) + AllInField(fs[|fs| - 1])
  }

  function AllInField(f: Field): seq<PathMessage>
    decreases f
  {
    match f
    case Scalar => []
    case Single(m) => AllPaths(m)
    case Repeated(ms) => AllInList(ms)
    case MapField(ms) => AllInList(ms)
  }

  function AllInList(ms: seq<Message>): seq<PathMessage>
    decreases ms
  {
    if ms == [] then [] else AllInList(ms[..|ms| - 1]) + AllPaths(ms[|ms| - 1])
  }

  /** The paths met by recursion: those outside any result path and any map field. */
  function Met(m: Message): seq<PathMessage>
    decreases m
  {
    match m
    case PathField(p) => [p]
    case ResultPath(_) => []
    case Node(fs) => MetInFields(fs)
  }

  function MetInFields(fs: seq<Field>): seq<PathMessage>
    decreases fs
  {
    if fs == [] then [] else MetInFields(fs[..|fs| - 1]) + MetInField(fs[|fs| - 1])
  }

  function MetInField(f: Field): seq<PathMessage>
    decreases f
  {
    match f
    case Single(m) => Met(m)
    case Repeated(ms) => MetInList(ms)
    case _ => []
  }

  function MetInList(ms: seq<Message>): seq<PathMessage>
    decreases ms
  {
    if ms == [] then [] else MetInList(ms[..|ms| - 1]) + Met(ms[|ms| - 1])
  }

  /** `p` occurs in the message, with no result path and no map field around it. */
  ghost predicate Visible(m: Message, p: PathMessage)
    decreases m
  {
    match m
    case PathField(q) => p == q
    case ResultPath(_) => false
    case Node(fs) => exists f :: f in fs && VisibleIn(f, p)
  }

  ghost predicate VisibleIn(f: Field, p: PathMessage)
    decreases f
  {
    match f
    case Single(m) => Visible(m, p)
    case Repeated(ms) => exists m :: m in ms && Visible(m, p)
    case _ => false
  }

  /** Recursion meets exactly the visible paths. */
  lemma {:induction false} MetIsVisible(m: Message, p: PathMessage)
    ensures p in Met(m) <==> Visible(m, p)
    decreases m
  {
    match m
    case PathField(_) =>
    case ResultPath(_) =>
    case Node(fs) => MetInFieldsIsVisible(fs, p);
  }

  lemma {:induction false} MetInFieldsIsVisible(fs: seq<Field>, p: PathMessage)
    ensures p in MetInFields(fs) <==> exists f :: f in fs && VisibleIn(f, p)
    decreases fs
  {
    if fs != [] {
      var init, f := fs[..|fs| - 1], fs[|fs| - 1];
      MetInFieldsIsVisible(init, p);
      MetInFieldIsVisible(f, p);
      assert fs == init + [f];
      assert forall g :: g in fs <==> g in init || g == f;
    }
  }

  lemma {:induction false} MetInFieldIsVisible(f: Field, p: PathMessage)
    ensures p in MetInField(f) <==> VisibleIn(f, p)
    decreases f
  {
    match f
    case Single(m) => MetIsVisible(m, p);
    case Repeated(ms) => MetInListIsVisible(ms, p);
    case _ =>
  }

  lemma {:induction false} MetInListIsVisible(ms: seq<Message>, p: PathMessage)
    ensures p in MetInList(ms) <==> exists m :: m in ms && Visible(m, p)
    decreases ms
  {
    if ms != [] {
      var init, m := ms[..|ms| - 1], ms[|ms| - 1];
      MetInListIsVisible(init, p);
      MetIsVisible(m, p);
      assert ms == init + [m];
      assert forall g :: g in ms <==> g in init || g == m;
    }
  }

  /** The paths recursion does not meet: those within a result path or among the values of a map field. */
  function Unmet(m: Message): seq<PathMessage>
    decreases m
  {
    match m
    case PathField(_) => []
    case ResultPath(fs) => AllInFields(fs)
    case Node(fs) => UnmetInFields(fs)
  }

  function UnmetInFields(fs: seq<Field>): seq<PathMessage>
    decreases fs
  {
    if fs == [] then [] else UnmetInFields(fs[..|fs| - 1]) + UnmetInField(fs[|fs| - 1])
  }

  function UnmetInField(f: Field): seq<PathMessage>
    decreases f
  {
    match f
    case Scalar => []
    case Single(m) => Unmet(m)
    case Repeated(ms) => UnmetInList(ms)
    case MapField(ms) => AllInList(ms)
  }

  function UnmetInList(ms: seq<Message>): seq<PathMessage>
    decreases ms
  {
    if ms == [] then [] else UnmetInList(ms[..|ms| - 1]) + Unmet(ms[|ms| - 1])
  }

  /** Every occurrence of a path is either met or not. */
  lemma {:induction false} MetOrUnmet(m: Message)
    ensures multiset(AllPaths(m)) == multiset(Met(m)) + multiset(Unmet(m))
    decreases m
  {
    match m
    case PathField(_) =>
    case ResultPath(_) =>
    case Node(fs) => MetOrUnmetInFields(fs);
  }

  lemma {:induction false} MetOrUnmetInFields(fs: seq<Field>)
    ensures multiset(AllInFields(fs)) == multiset(MetInFields(fs)) + multiset(UnmetInFields(fs))
    decreases fs
  {
    if fs != [] {
      MetOrUnmetInFields(fs[..|fs| - 1]);
      MetOrUnmetInField(fs[|fs| - 1]);
    }
  }

  lemma {:induction false} MetOrUnmetInField(f: Field)
    ensures multiset(AllInField(f)) == multiset(MetInField(f)) + multiset(UnmetInField(f))
    decreases f
  {
    match f {
      case Single(m) => MetOrUnmet(m);
      case Repeated(ms) => MetOrUnmetInList(ms);
      case _ =>
    }
  }

  lemma {:induction false} MetOrUnmetInList(ms: seq<Message>)
    ensures multiset(AllInList(ms)) == multiset(MetInList(ms)) + multiset(UnmetInList(ms))
    decreases ms
  {
    if ms != [] {
      MetOrUnmetInList(ms[..|ms| - 1]);
      MetOrUnmet(ms[|ms| - 1]);
    }
  }

  /** Where no path occurs twice, exactly those within result paths and map values are not met. */
  lemma UnmetIsNotMet(m: Message, p: PathMessage)
    requires NoDup(AllPaths(m)) && p in AllPaths(m)
    ensures p in Unmet(m) <==> p !in Met(m)
  {
    MetOrUnmet(m);
    OccursOnce(AllPaths(m), p);
    assert p in Met(m) <==> multiset(Met(m))[p] > 0;
    assert p in Unmet(m) <==> multiset(Unmet(m))[p] > 0;
  }

  lemma {:induction false} OccursOnce(ps: seq<PathMessage>, p: PathMessage)
    requires NoDup(ps)
    ensures multiset(ps)[p] == if p in ps then 1 else 0
  {
    if ps != [] {
      var init, last := ps[..|ps| - 1], ps[|ps| - 1];
      assert ps == init + [last];
      OccursOnce(init, p);
    }
  }

  /** A path among the values of a map field is not met, whatever message the field is in. */
  lemma MapPathIsNotMet(m: Message, before: seq<Field>, values: seq<Message>, after: seq<Field>, p: PathMessage)
    requires m == Node(before + [MapField(values)] + after) && NoDup(AllPaths(m)) && p in AllInList(values)
    ensures p in AllPaths(m) && p !in Met(m)
  {
    UnmetInMap(before + [MapField(values)], after, MapField(values), p);
    MetOrUnmet(m);
    assert p in multiset(Unmet(m)) && p in multiset(AllPaths(m));
    UnmetIsNotMet(m, p);
  }

  lemma {:induction false} UnmetInMap(fs: seq<Field>, after: seq<Field>, f: Field, p: PathMessage)
    requires fs != [] && fs[|fs| - 1] == f && p in UnmetInField(f)
    ensures p in UnmetInFields(fs + after)
    decreases |after|
  {
    if after == [] {
      assert fs + after == fs;
    } else {
      var all := fs + after;
      assert all[..|all| - 1] == fs + after[..|after| - 1];
      UnmetInMap(fs, after[..|after| - 1], f, p);
    }
  }

  predicate Complete(v: PathValue) {
    v.path != "" && v.location != Unset
  }

  /** The paths with a handler: those in sight that name both a path and where it is. */
  lemma HandledExactlyWhen(m: Message, p: PathMessage)
    ensures p in CompleteOf(Met(m)) <==> Visible(m, p) && p.path != "" && p.location != Unset
  {
    MetIsVisible(m, p);
  }

  /** The members of `ps` that are complete. */
  function CompleteOf(ps: seq<PathMessage>): (r: seq<PathMessage>)
    reads ps
    ensures forall p :: p in r ==> p in ps && Complete(p.Value())
    ensures forall p :: p in ps && Complete(p.Value()) ==> p in r
  {
    if ps == [] then []
    else
      var last := ps[|ps| - 1];
      assert last in ps;
      CompleteOf(ps[..|ps| - 1]) + (if Complete(last.Value()) then [last] else [])
  }

  lemma {:induction false} CompleteOfConcat(a: seq<PathMessage>, b: seq<PathMessage>)
    ensures CompleteOf(a + b) == CompleteOf(a) + CompleteOf(b)
    decreases |b|
  {
    if b == [] {
      assert a + b == a;
    } else {
      var init := b[..|b| - 1];
      assert (a + b)[..|a + b| - 1] == a + init;
      CompleteOfConcat(a, init);
    }
  }

  // ------------------------------------------------------------- a message tree shares no path

  lemma NoDupParts(a: seq<PathMessage>, b: seq<PathMessage>)
    requires NoDup(a + b)
    ensures NoDup(a) && NoDup(b) && forall p :: p in a ==> p !in b
  {
    var c := a + b;
    forall i, j | 0 <= i < j < |a| ensures a[i] != a[j] {
      assert c[i] != c[j];
    }
    forall i, j | 0 <= i < j < |b| ensures b[i] != b[j] {
      assert c[|a| + i] != c[|a| + j];
    }
    forall i, j | 0 <= i < |a| && 0 <= j < |b| ensures a[i] != b[j] {
      assert c[i] != c[|a| + j];
    }
  }

  lemma NoDupJoin(a: seq<PathMessage>, b: seq<PathMessage>)
    requires NoDup(a) && NoDup(b) && forall p :: p in a ==> p !in b
    ensures NoDup(a + b)
  {
    var c := a + b;
    forall i, j | 0 <= i < j < |c| ensures c[i] != c[j] {
      if i < |a| && |a| <= j {
        var p := c[i];
        assert p in a && b[j - |a|] in b;
      }
    }
  }

  /** `at` says where in `b` the elements of `a` are, in the same order. */
  ghost predicate WithinAt(a: seq<PathMessage>, b: seq<PathMessage>, at: seq<nat>) {
    && |at| == |a|
    && (forall k :: 0 <= k < |a| ==> at[k] < |b| && b[at[k]] == a[k])
    && forall k, l :: 0 <= k < l < |a| ==> at[k] < at[l]
  }

  ghost predicate Within(a: seq<PathMessage>, b: seq<PathMessage>) {
    exists at :: WithinAt(a, b, at)
  }

  lemma NothingIsWithin(b: seq<PathMessage>)
    ensures Within([], b)
  {
    assert WithinAt([], b, []);
  }

  lemma OneIsWithin(p: PathMessage)
    ensures Within([p], [p])
  {
    assert WithinAt([p], [p], [0]);
  }

  lemma WithinJoin(a: seq<PathMessage>, a': seq<PathMessage>, b: seq<PathMessage>, b': seq<PathMessage>)
    requires Within(a, a') && Within(b, b')
    ensures Within(a + b, a' + b')
  {
    var at :| WithinAt(a, a', at);
    var bt :| WithinAt(b, b', bt);
    var shifted: seq<nat> := seq(|bt|, k requires 0 <= k < |bt| => |a'| + bt[k]);
    assert WithinAt(a + b, a' + b', at + shifted);
  }

  /** `a` is part of `b` in the same order, and no path occurs more often in it. */
  ghost predicate PartOf(a: seq<PathMessage>, b: seq<PathMessage>) {
    Within(a, b) && multiset(a) <= multiset(b) && (NoDup(b) ==> NoDup(a))
  }

  lemma PartIsIn(a: seq<PathMessage>, b: seq<PathMessage>)
    requires PartOf(a, b)
    ensures forall p :: p in a ==> p in b
  {
    forall p | p in a ensures p in b {
      assert p in multiset(a);
      assert p in multiset(b);
    }
  }

  lemma PartOfJoin(a: seq<PathMessage>, a': seq<PathMessage>, b: seq<PathMessage>, b': seq<PathMessage>)
    requires PartOf(a, a') && PartOf(b, b')
    ensures PartOf(a + b, a' + b')
  {
    PartIsIn(a, a');
    PartIsIn(b, b');
    WithinJoin(a, a', b, b');
    if NoDup(a' + b') {
      NoDupParts(a', b');
      NoDupJoin(a, b);
    }
  }

  /** Every path met is a path of the message, in the order of the message and met no more often than it occurs. */
  lemma {:induction false} MetIsPart(m: Message)
    ensures PartOf(Met(m), AllPaths(m))
    decreases m
  {
    match m
    case PathField(p) => OneIsWithin(p);
    case ResultPath(_) => NothingIsWithin(AllPaths(m));
    case Node(fs) => MetInFieldsIsPart(fs);
  }

  lemma {:induction false} MetInFieldsIsPart(fs: seq<Field>)
    ensures PartOf(MetInFields(fs), AllInFields(fs))
    decreases fs
  {
    NothingIsWithin([]);
    if fs != [] {
      var f := fs[|fs| - 1];
      MetInFieldsIsPart(fs[..|fs| - 1]);
      MetInFieldIsPart(f);
      PartOfJoin(MetInFields(fs[..|fs| - 1]), AllInFields(fs[..|fs| - 1]), MetInField(f), AllInField(f));
    }
  }

  lemma {:induction false} MetInFieldIsPart(f: Field)
    ensures PartOf(MetInField(f), AllInField(f))
    decreases f
  {
    match f {
      case Single(m) => MetIsPart(m);
      case Repeated(ms) => MetInListIsPart(ms);
      case _ => NothingIsWithin(AllInField(f));
    }
  }

  lemma {:induction false} MetInListIsPart(ms: seq<Message>)
    ensures PartOf(MetInList(ms), AllInList(ms))
    decreases ms
  {
    NothingIsWithin([]);
    if ms != [] {
      var m := ms[|ms| - 1];
      MetInListIsPart(ms[..|ms| - 1]);
      MetIsPart(m);
      PartOfJoin(MetInList(ms[..|ms| - 1]), AllInList(ms[..|ms| - 1]), Met(m), AllPaths(m));
    }
  }

  lemma {:induction false} CompleteOfIsPart(ps: seq<PathMessage>)
    ensures PartOf(CompleteOf(ps), ps)
  {
    NothingIsWithin(ps);
    if ps != [] {
      var init, last := ps[..|ps| - 1], ps[|ps| - 1];
      CompleteOfIsPart(init);
      OneIsWithin(last);
      NothingIsWithin([last]);
      PartOfJoin(CompleteOf(init), init, if Complete(last.Value()) then [last] else [], [last]);
      assert ps == init + [last];
    }
  }

  // ------------------------------------------------------------- handlers

  /** Copies a file to its destination and names its new path; None if the copy fails. */
  type Placement = (string, Location) -> Option<string>

  class PathHandler {
    const field: PathMessage
    const delete: bool
    const reset: bool
    const original: PathValue
    var transferred: bool
    var tempdir: bool

    constructor (field: PathMessage, delete: bool, reset: bool)
      requires Complete(field.Value())
      ensures this.field == field && this.delete == delete && this.reset == reset
      ensures original == field.Value() && !transferred && !tempdir
    {
      this.field, this.delete, this.reset := field, delete, reset;
      this.original := field.Value();
      transferred, tempdir := false, false;
    }

    /** Moves the file unless it was moved or is where it should be; false if the copy fails. */
    method Transfer(place: Placement, direction: Location) returns (ok: bool)
      requires direction != Unset
      modifies this, field
      ensures ok <==> old(transferred) || old(field.location) == direction || place(old(field.path), direction).Some?
      ensures ok && !old(transferred) && old(field.location) != direction ==>
        Some(field.path) == place(old(field.path), direction) && field.location == direction
      ensures !ok || old(transferred) || old(field.location) == direction ==> field.Value() == old(field.Value())
      ensures old(transferred) ==> transferred && tempdir == old(tempdir)
      ensures !old(transferred) ==> (tempdir <==> old(tempdir) || (delete && old(field.location) != direction))
      ensures !old(transferred) ==> (transferred <==> ok && old(field.location) != direction)
    {
      if transferred {
        return true;
      }
      if field.location == direction {
        return true;
      }
      if delete {
        tempdir := true;
      }
      var dest := place(field.path, direction);
      if dest.None? {
        return false;
      }
      field.path := dest.value;
      field.location := direction;
      transferred := true;
      ok := true;
    }

    method Cleanup()
      modifies this`tempdir, field
      ensures !tempdir
      ensures field.Value() == if reset then original else old(field.Value())
    {
      if tempdir {
        tempdir := false;
      }
      if reset {
        field.CopyFrom(original);
      }
    }
  }

  predicate Fails(place: Placement, direction: Location, v: PathValue) {
    v.location != direction && place(v.path, direction).None?
  }

  /** A path after its transfer, which leaves alone what is already in place. */
  function Moved(place: Placement, direction: Location, v: PathValue): PathValue {
    if v.location == direction || place(v.path, direction).None? then v
    else PathValue(place(v.path, direction).value, direction)
  }

  /** One untouched handler for each path of `ps`, in order. */
  ghost predicate HandlersFor(hs: seq<PathHandler>, ps: seq<PathMessage>, delete: bool, reset: bool)
    reads hs, ps
  {
    && |hs| == |ps|
    && (forall i :: 0 <= i < |ps| ==> hs[i].field == ps[i] && hs[i].original == ps[i].Value())
    && (forall i :: 0 <= i < |ps| ==> !hs[i].transferred && !hs[i].tempdir)
    && (forall i :: 0 <= i < |ps| ==> hs[i].delete == delete && hs[i].reset == reset)
    && NoDup(hs)
  }

  lemma HandlersJoin(hs: seq<PathHandler>, ps: seq<PathMessage>, hs': seq<PathHandler>, ps': seq<PathMessage>,
                     delete: bool, reset: bool)
    requires HandlersFor(hs, ps, delete, reset) && HandlersFor(hs', ps', delete, reset)
    requires forall h :: h in hs ==> h !in hs'
    ensures HandlersFor(hs + hs', ps + ps', delete, reset)
  {
    var c := hs + hs';
    forall i, j | 0 <= i < j < |c| ensures c[i] != c[j] {
      if i < |hs| && |hs| <= j {
        var h := c[i];
        assert h in hs && hs'[j - |hs|] in hs';
      }
    }
  }

  /** Handlers for all complete paths met in a message, in the order of its fields. */
  method ExtractHandlers(m: Message, delete: bool, reset: bool) returns (hs: seq<PathHandler>)
    ensures HandlersFor(hs, CompleteOf(Met(m)), delete, reset)
    ensures forall h :: h in hs ==> fresh(h)
    decreases m
  {
    match m
    case ResultPath(_) =>
      hs := [];
    case PathField(p) =>
      assert [p][..0] == [];
      if !Complete(p.Value()) {
        return [];
      }
      var h := new PathHandler(p, delete, reset);
      hs := [h];
    case Node(fs) =>
      hs := ExtractFromFields(fs, delete, reset);
  }

  method ExtractFromFields(fs: seq<Field>, delete: bool, reset: bool) returns (hs: seq<PathHandler>)
    ensures HandlersFor(hs, CompleteOf(MetInFields(fs)), delete, reset)
    ensures forall h :: h in hs ==> fresh(h)
    decreases fs
  {
    hs := [];
    for i := 0 to |fs|
      invariant HandlersFor(hs, CompleteOf(MetInFields(fs[..i])), delete, reset)
      invariant forall h :: h in hs ==> fresh(h)
    {
      assert fs[..i + 1][..i] == fs[..i];
      ghost var met := MetInFields(fs[..i]);
      ghost var done := CompleteOf(met);
      var more := ExtractFromField(fs[i], delete, reset);
      assert CompleteOf(met) == done;
      HandlersJoin(hs, done, more, CompleteOf(MetInField(fs[i])), delete, reset);
      CompleteOfConcat(met, MetInField(fs[i]));
      hs := hs + more;
    }
    assert fs[..|fs|] == fs;
  }

  method ExtractFromField(f: Field, delete: bool, reset: bool) returns (hs: seq<PathHandler>)
    ensures HandlersFor(hs, CompleteOf(MetInField(f)), delete, reset)
    ensures forall h :: h in hs ==> fresh(h)
    decreases f
  {
    match f
    case Single(m) =>
      hs := ExtractHandlers(m, delete, reset);
    case Repeated(ms) =>
      hs := ExtractFromList(ms, delete, reset);
    case _ =>
      hs := [];
  }

  method ExtractFromList(ms: seq<Message>, delete: bool, reset: bool) returns (hs: seq<PathHandler>)
    ensures HandlersFor(hs, CompleteOf(MetInList(ms)), delete, reset)
    ensures forall h :: h in hs ==> fresh(h)
    decreases ms
  {
    hs := [];
    for i := 0 to |ms|
      invariant HandlersFor(hs, CompleteOf(MetInList(ms[..i])), delete, reset)
      invariant forall h :: h in hs ==> fresh(h)
    {
      assert ms[..i + 1][..i] == ms[..i];
      ghost var met := MetInList(ms[..i]);
      ghost var done := CompleteOf(met);
      var more := ExtractHandlers(ms[i], delete, reset);
      assert CompleteOf(met) == done;
      HandlersJoin(hs, done, more, CompleteOf(Met(ms[i])), delete, reset);
      CompleteOfConcat(met, Met(ms[i]));
      hs := hs + more;
    }
    assert ms[..|ms|] == ms;
  }

  // ------------------------------------------------------------- in, and out again

  function Values(ps: seq<PathMessage>): (r: seq<PathValue>)
    reads ps
    ensures |r| == |ps| && forall i :: 0 <= i < |ps| ==> r[i] == ps[i].Value()
  {
    if ps == [] then [] else
      var last := ps[|ps| - 1];
      assert last in ps;
      Values(ps[..|ps| - 1]) + [last.Value()]
  }

  /** Each path has been moved, up to the `n`th; the others are as they were. */
  ghost predicate MovedUpTo(place: Placement, was: seq<PathValue>, now: seq<PathValue>, n: int) {
    && |was| == |now|
    && forall i :: 0 <= i < |was| ==> now[i] == if i < n then Moved(place, Inside, was[i]) else was[i]
  }

  /** The first path that cannot be moved, or the number of paths. */
  function FirstFailure(place: Placement, was: seq<PathValue>): (n: nat)
    ensures n <= |was|
    ensures n < |was| ==> Fails(place, Inside, was[n])
    ensures forall i :: 0 <= i < n ==> !Fails(place, Inside, was[i])
  {
    if was == [] then 0
    else
      var n := FirstFailure(place, was[..|was| - 1]);
      if n < |was| - 1 then n
      else if Fails(place, Inside, was[|was| - 1]) then n else n + 1
  }

  lemma FirstFailureIs(place: Placement, was: seq<PathValue>, n: nat)
    requires n <= |was| && (n < |was| ==> Fails(place, Inside, was[n]))
    requires forall i :: 0 <= i < n ==> !Fails(place, Inside, was[i])
    ensures n == FirstFailure(place, was)
  {
  }

  /** Transfers all handlers, stopping at the first failure. */
  method TransferIn(hs: seq<PathHandler>, ghost ps: seq<PathMessage>, place: Placement, delete: bool) returns (ok: bool)
    requires HandlersFor(hs, ps, delete, true) && NoDup(ps)
    modifies hs, ps
    ensures ok <==> FirstFailure(place, old(Values(ps))) == |ps|
    ensures MovedUpTo(place, old(Values(ps)), Values(ps), FirstFailure(place, old(Values(ps))))
    ensures HaveDirs(Dirs(hs), old(Values(ps)), delete, FirstFailure(place, old(Values(ps))) + 1)
  {
    ghost var was := Values(ps);
    for i := 0 to |hs|
      invariant forall j :: i <= j < |ps| ==> !hs[j].transferred
      invariant HaveDirs(Dirs(hs), was, delete, i)
      invariant MovedUpTo(place, was, Values(ps), i)
      invariant i <= FirstFailure(place, was)
    {
      var moved := TransferNext(hs, ps, was, i, place, delete);
      if !moved {
        return false;
      }
    }
    ok := true;
  }

  /** One round of the loop. */
  method TransferNext(hs: seq<PathHandler>, ghost ps: seq<PathMessage>, ghost was: seq<PathValue>, i: nat, place: Placement,
                      ghost delete: bool) returns (ok: bool)
    requires |hs| == |ps| == |was| && i < |hs| && NoDup(hs) && NoDup(ps)
    requires forall j :: 0 <= j < |ps| ==> hs[j].field == ps[j]
    requires !hs[i].transferred && hs[i].delete == delete
    requires MovedUpTo(place, was, Values(ps), i) && HaveDirs(Dirs(hs), was, delete, i) && i <= FirstFailure(place, was)
    modifies hs[i], ps[i]
    ensures forall j :: 0 <= j < |ps| && j != i ==> hs[j].transferred == old(hs[j].transferred)
    ensures HaveDirs(Dirs(hs), was, delete, i + 1)
    ensures if ok then i < FirstFailure(place, was) && MovedUpTo(place, was, Values(ps), i + 1)
            else i == FirstFailure(place, was) && MovedUpTo(place, was, Values(ps), i)
  {
    OneMoreDir(Dirs(hs), was, delete, i);
    OneMoreMoved(place, was, Values(ps), i);
    ok := TransferOne(hs, ps, i, place, delete);
  }

  /** After the next path either one more is moved, or it is the first failing one and nothing has changed. */
  lemma OneMoreMoved(place: Placement, was: seq<PathValue>, now: seq<PathValue>, i: nat)
    requires MovedUpTo(place, was, now, i) && i < |was| && i <= FirstFailure(place, was)
    ensures now[i] == was[i]
    ensures var next := now[i := Moved(place, Inside, now[i])];
            if Fails(place, Inside, was[i]) then FirstFailure(place, was) == i && next == now
            else i + 1 <= FirstFailure(place, was) && MovedUpTo(place, was, next, i + 1)
  {
  }

  /** The handlers reached before the `n`th hold a temporary directory if they had to move their path, and no other does. */
  ghost predicate HaveDirs(dirs: seq<bool>, was: seq<PathValue>, delete: bool, n: int) {
    && |dirs| == |was|
    && forall i :: 0 <= i < |dirs| ==> (dirs[i] <==> delete && i < n && was[i].location != Inside)
  }

  /** Which handlers hold a temporary directory. */
  function Dirs(hs: seq<PathHandler>): (r: seq<bool>)
    reads hs
    ensures |r| == |hs| && forall i :: 0 <= i < |hs| ==> r[i] == hs[i].tempdir
  {
    if hs == [] then []
    else
      var last := hs[|hs| - 1];
      assert last in hs;
      Dirs(hs[..|hs| - 1]) + [last.tempdir]
  }

  lemma NoDirs(hs: seq<PathHandler>, was: seq<PathValue>)
    requires |hs| == |was| && forall h :: h in hs ==> !h.tempdir
    ensures HaveDirs(Dirs(hs), was, false, 0)
  {
    forall i | 0 <= i < |hs| ensures !hs[i].tempdir {
      var h := hs[i];
      assert h in hs;
    }
  }

  lemma OneMoreDir(dirs: seq<bool>, was: seq<PathValue>, delete: bool, i: nat)
    requires HaveDirs(dirs, was, delete, i) && i < |was|
    ensures !dirs[i] && HaveDirs(dirs[i := delete && was[i].location != Inside], was, delete, i + 1)
  {
  }

  /** Transfers the path of one handler; no other path and no other handler is touched. */
  method TransferOne(hs: seq<PathHandler>, ghost ps: seq<PathMessage>, i: nat, place: Placement, ghost delete: bool)
    returns (ok: bool)
    requires |hs| == |ps| && i < |hs| && NoDup(hs) && NoDup(ps)
    requires forall j :: 0 <= j < |ps| ==> hs[j].field == ps[j]
    requires !hs[i].transferred && !hs[i].tempdir && hs[i].delete == delete
    modifies hs[i], ps[i]
    ensures ok <==> !Fails(place, Inside, old(Values(ps)[i]))
    ensures Values(ps) == old(Values(ps))[i := Moved(place, Inside, old(Values(ps)[i]))]
    ensures forall j :: 0 <= j < |ps| && j != i ==> hs[j].transferred == old(hs[j].transferred)
    ensures Dirs(hs) == old(Dirs(hs))[i := delete && old(Values(ps)[i]).location != Inside]
  {
    ok := hs[i].Transfer(place, Inside);
    forall j | 0 <= j < |ps| && j != i ensures ps[j].Value() == old(ps[j].Value()) {
      assert ps[j] != ps[i];
    }
    forall j | 0 <= j < |ps| && j != i
      ensures hs[j].transferred == old(hs[j].transferred) && hs[j].tempdir == old(hs[j].tempdir)
    {
      assert hs[j] != hs[i];
    }
  }

  /** Cleans up all handlers: every handled path is as it was when extracted. */
  method CleanupAll(hs: seq<PathHandler>, ghost ps: seq<PathMessage>, ghost was: seq<PathValue>)
    requires |hs| == |ps| == |was| && NoDup(ps)
    requires forall i :: 0 <= i < |ps| ==> hs[i].field == ps[i] && hs[i].original == was[i] && hs[i].reset
    modifies hs, ps
    ensures Values(ps) == was
    ensures forall h :: h in hs ==> !h.tempdir
  {
    for i := 0 to |hs|
      invariant forall j :: 0 <= j < i ==> ps[j].Value() == was[j]
      invariant forall j :: 0 <= j < i ==> !hs[j].tempdir
    {
      var h := hs[i];
      assert h in hs && h.field in ps;
      label Before:
      h.Cleanup();
      forall j | 0 <= j < i ensures ps[j].Value() == was[j] {
        assert ps[j] != ps[i];
      }
    }
  }

  /** The body of the `with` statement: it may rewrite the handled paths, and nothing else of the message. */
  method Edit(ps: seq<PathMessage>, edits: nat -> PathValue)
    modifies ps
  {
    for i := 0 to |ps| {
      var p := ps[i];
      assert p in ps;
      p.CopyFrom(edits(i));
    }
  }

  /** The handled paths are moved inside and everything else is as it was. */
  ghost predicate InsideView(place: Placement, all: seq<PathMessage>, ps: seq<PathMessage>,
                             was: seq<PathValue>, now: seq<PathValue>)
    requires |all| == |was| == |now|
  {
    forall i :: 0 <= i < |all| ==>
      if all[i] in ps then now[i] == Moved(place, Inside, was[i]) && now[i].location == Inside
      else now[i] == was[i]
  }

  /** The paths handled for a message: complete, and outside any result path or map field. */
  function Handled(m: Message): (ps: seq<PathMessage>)
    reads Met(m)
  {
    CompleteOf(Met(m))
  }

  /** What a completed transfer leaves, seen over the whole message. */
  lemma WholeView(place: Placement, all: seq<PathMessage>, ps: seq<PathMessage>,
                  was: seq<PathValue>, psWas: seq<PathValue>, now: seq<PathValue>, psNow: seq<PathValue>)
    requires |all| == |was| == |now| && |ps| == |psWas| == |psNow|
    requires MovedUpTo(place, psWas, psNow, |ps|) && FirstFailure(place, psWas) == |ps|
    requires forall i, j :: 0 <= i < |all| && 0 <= j < |ps| && all[i] == ps[j] ==> psWas[j] == was[i] && psNow[j] == now[i]
    requires forall i :: 0 <= i < |all| && all[i] !in ps ==> now[i] == was[i]
    ensures InsideView(place, all, ps, was, now)
  {
    forall i | 0 <= i < |all| && all[i] in ps
      ensures now[i] == Moved(place, Inside, was[i]) && now[i].location == Inside
    {
      var j :| 0 <= j < |ps| && ps[j] == all[i];
      assert !Fails(place, Inside, psWas[j]);
    }
  }

  /** A failed transfer has changed nothing exactly when all paths before the failing one were already inside. */
  lemma PartialView(place: Placement, was: seq<PathValue>, now: seq<PathValue>)
    requires MovedUpTo(place, was, now, FirstFailure(place, was))
    ensures now == was <==> forall i :: 0 <= i < FirstFailure(place, was) ==> was[i].location == Inside
  {
    if now == was {
      forall i | 0 <= i < FirstFailure(place, was) ensures was[i].location == Inside {
        assert now[i] == Moved(place, Inside, was[i]);
      }
    }
  }

  /** All copies worked, the body saw the paths inside, and afterwards all is as before and no directory is left. */
  ghost predicate Entered(place: Placement, all: seq<PathMessage>, ps: seq<PathMessage>,
                          was: seq<PathValue>, psWas: seq<PathValue>,
                          inside: seq<PathValue>, now: seq<PathValue>, dirs: seq<bool>)
  {
    && FirstFailure(place, psWas) == |psWas|
    && |all| == |was| == |inside| && InsideView(place, all, ps, was, inside)
    && now == was
    && HaveDirs(dirs, psWas, false, 0)
  }

  /** A copy failed: the earlier paths have been moved, and the directories made so far are left. */
  ghost predicate NotEntered(place: Placement, delete: bool, was: seq<PathValue>, psWas: seq<PathValue>,
                             now: seq<PathValue>, psNow: seq<PathValue>, dirs: seq<bool>)
  {
    var n := FirstFailure(place, psWas);
    && n < |psWas|
    && MovedUpTo(place, psWas, psNow, n)
    && (now == was <==> forall i :: 0 <= i < n ==> psWas[i].location == Inside)
    && HaveDirs(dirs, psWas, delete, n + 1)
  }

  /**
    The whole `with copy_paths_in` statement, for any body that edits only the
    handled paths.  If every transfer succeeds, the body sees exactly the
    handled paths inside and the message is restored at the end.  A failed
    transfer is not cleaned up after: the message is then intact exactly when
    no earlier path had to be moved, and the temporary directories made so
    far, that of the failing copy included, are left behind.
   */
  method CopyPathsIn(m: Message, place: Placement, delete: bool, edits: nat -> PathValue)
    returns (entered: bool, ghost inside: seq<PathValue>, ghost handlers: seq<PathHandler>)
    requires NoDup(AllPaths(m))
    modifies AllPaths(m)
    ensures entered ==> Entered(place, AllPaths(m), old(Handled(m)), old(Values(AllPaths(m))), old(Values(Handled(m))),
                                inside, Values(AllPaths(m)), Dirs(handlers))
    ensures !entered ==> NotEntered(place, delete, old(Values(AllPaths(m))), old(Values(Handled(m))),
                                    Values(AllPaths(m)), Values(old(Handled(m))), Dirs(handlers))
  {
    ghost var all, ps := AllPaths(m), Handled(m);
    HandledIsPart(m);
    entered, inside, handlers := CopyHandled(m, all, ps, place, delete, edits);
  }

  /** The statement in terms of the handled paths. */
  method CopyHandled(m: Message, ghost all: seq<PathMessage>, ghost ps: seq<PathMessage>, place: Placement, delete: bool,
                     edits: nat -> PathValue)
    returns (entered: bool, ghost inside: seq<PathValue>, ghost handlers: seq<PathHandler>)
    requires ps == Handled(m) && NoDup(ps) && forall i :: 0 <= i < |ps| ==> ps[i] in all
    modifies all
    ensures entered ==> Entered(place, all, ps, old(Values(all)), old(Values(ps)), inside, Values(all), Dirs(handlers))
    ensures !entered ==> NotEntered(place, delete, old(Values(all)), old(Values(ps)), Values(all), Values(ps), Dirs(handlers))
  {
    ghost var was, psWas := Values(all), Values(ps);
    var hs;
    entered, hs := Enter(m, all, ps, place, delete);
    inside, handlers := Values(all), hs;
    if entered {
      Restore(hs, all, ps, edits, was, psWas);
      NoDirs(hs, psWas);
    }
  }

  /** Everything up to the body: extraction and transfer. */
  method Enter(m: Message, ghost all: seq<PathMessage>, ghost ps: seq<PathMessage>, place: Placement, delete: bool)
    returns (entered: bool, hs: seq<PathHandler>)
    requires ps == Handled(m) && NoDup(ps) && forall i :: 0 <= i < |ps| ==> ps[i] in all
    modifies all
    ensures entered <==> FirstFailure(place, old(Values(ps))) == |ps|
    ensures entered ==> InsideView(place, all, ps, old(Values(all)), Values(all))
    ensures !entered ==>
      (Values(all) == old(Values(all)) <==>
        forall i :: 0 <= i < FirstFailure(place, old(Values(ps))) ==> old(Values(ps))[i].location == Inside)
    ensures Responsible(hs, all, ps, old(Values(all)), old(Values(ps)))
    ensures MovedUpTo(place, old(Values(ps)), Values(ps), FirstFailure(place, old(Values(ps))))
    ensures HaveDirs(Dirs(hs), old(Values(ps)), delete, FirstFailure(place, old(Values(ps))) + 1)
    ensures forall i :: 0 <= i < |hs| ==> fresh(hs[i])
  {
    ghost var was, psWas := Values(all), Values(ps);
    hs := Extract(m, ps, delete);
    assert Values(ps) == psWas && Values(all) == was;
    UntouchedIsResponsible(hs, all, ps, was, psWas, delete);
    entered := TransferMessage(hs, all, ps, was, psWas, place, delete);
  }

  /** Each handler knows the original value of its path, and all other paths still have theirs. */
  ghost predicate Responsible(hs: seq<PathHandler>, all: seq<PathMessage>, ps: seq<PathMessage>,
                              was: seq<PathValue>, psWas: seq<PathValue>)
    reads all
  {
    && |hs| == |ps| == |psWas| && |all| == |was| && NoDup(ps)
    && (forall i :: 0 <= i < |ps| ==> ps[i] in all)
    && (forall i :: 0 <= i < |ps| ==> hs[i].field == ps[i] && hs[i].original == psWas[i] && hs[i].reset)
    && (forall i, j :: 0 <= i < |all| && 0 <= j < |ps| && all[i] == ps[j] ==> psWas[j] == was[i])
    && (forall i :: 0 <= i < |all| && all[i] !in ps ==> all[i].Value() == was[i])
  }

  lemma HandledIsPart(m: Message)
    requires NoDup(AllPaths(m))
    ensures NoDup(Handled(m)) && forall i :: 0 <= i < |Handled(m)| ==> Handled(m)[i] in AllPaths(m)
  {
    MetIsPart(m);
    CompleteOfIsPart(Met(m));
    PartIsIn(Met(m), AllPaths(m));
    var ps := Handled(m);
    forall i | 0 <= i < |ps| ensures ps[i] in AllPaths(m) {
      var p := ps[i];
      assert p in ps && p in Met(m);
    }
  }

  lemma UntouchedIsResponsible(hs: seq<PathHandler>, all: seq<PathMessage>, ps: seq<PathMessage>,
                               was: seq<PathValue>, psWas: seq<PathValue>, delete: bool)
    requires HandlersFor(hs, ps, delete, true) && NoDup(ps) && forall i :: 0 <= i < |ps| ==> ps[i] in all
    requires Values(ps) == psWas && Values(all) == was
    ensures Responsible(hs, all, ps, was, psWas)
  {
  }

  /** Fresh handlers for the handled paths of a message. */
  method Extract(m: Message, ghost ps: seq<PathMessage>, delete: bool) returns (hs: seq<PathHandler>)
    requires ps == Handled(m)
    ensures HandlersFor(hs, ps, delete, true)
    ensures forall i :: 0 <= i < |hs| ==> fresh(hs[i])
  {
    ghost var met := Met(m);
    assert ps == CompleteOf(met);
    hs := ExtractHandlers(m, delete, true);
    assert ps == CompleteOf(met);
    forall i | 0 <= i < |hs| ensures fresh(hs[i]) {
      var h := hs[i];
      assert h in hs;
    }
  }

  /** The transfer of all handled paths, seen over the whole message. */
  method TransferMessage(hs: seq<PathHandler>, ghost all: seq<PathMessage>, ghost ps: seq<PathMessage>,
                         ghost was: seq<PathValue>, ghost psWas: seq<PathValue>, place: Placement, delete: bool)
    returns (ok: bool)
    requires HandlersFor(hs, ps, delete, true) && Responsible(hs, all, ps, was, psWas)
    requires Values(ps) == psWas && Values(all) == was
    modifies hs, ps
    ensures ok <==> FirstFailure(place, psWas) == |psWas|
    ensures ok ==> InsideView(place, all, ps, was, Values(all))
    ensures !ok ==>
      (Values(all) == was <==> forall i :: 0 <= i < FirstFailure(place, psWas) ==> psWas[i].location == Inside)
    ensures Responsible(hs, all, ps, was, psWas)
    ensures MovedUpTo(place, psWas, Values(ps), FirstFailure(place, psWas))
    ensures HaveDirs(Dirs(hs), psWas, delete, FirstFailure(place, psWas) + 1)
  {
    ok := TransferKnown(hs, all, ps, was, psWas, place, delete);
    Seen(all, ps);
    ViewAfter(place, all, ps, was, psWas, Values(all), Values(ps));
  }

  /** After the transfer each handler still knows the original value of its path. */
  method TransferKnown(hs: seq<PathHandler>, ghost all: seq<PathMessage>, ghost ps: seq<PathMessage>,
                       ghost was: seq<PathValue>, ghost psWas: seq<PathValue>, place: Placement, delete: bool)
    returns (ok: bool)
    requires HandlersFor(hs, ps, delete, true) && Responsible(hs, all, ps, was, psWas)
    requires Values(ps) == psWas
    modifies hs, ps
    ensures ok <==> FirstFailure(place, psWas) == |psWas|
    ensures Responsible(hs, all, ps, was, psWas)
    ensures MovedUpTo(place, psWas, Values(ps), FirstFailure(place, psWas))
    ensures HaveDirs(Dirs(hs), psWas, delete, FirstFailure(place, psWas) + 1)
  {
    ok := TransferIn(hs, ps, place, delete);
    forall i | 0 <= i < |all| && all[i] !in ps ensures all[i].Value() == was[i] {
      assert all[i].Value() == old(all[i].Value());
    }
  }

  /** The values of the handled paths are those of the message at the same places. */
  lemma Seen(all: seq<PathMessage>, ps: seq<PathMessage>)
    ensures forall i, j :: 0 <= i < |all| && 0 <= j < |ps| && all[i] == ps[j] ==> Values(ps)[j] == Values(all)[i]
  {
  }

  lemma ViewAfter(place: Placement, all: seq<PathMessage>, ps: seq<PathMessage>,
                  was: seq<PathValue>, psWas: seq<PathValue>, now: seq<PathValue>, psNow: seq<PathValue>)
    requires |all| == |was| == |now| && |ps| == |psWas| == |psNow|
    requires forall j :: 0 <= j < |ps| ==> ps[j] in all
    requires forall i, j :: 0 <= i < |all| && 0 <= j < |ps| && all[i] == ps[j] ==> psWas[j] == was[i]
    requires forall i, j :: 0 <= i < |all| && 0 <= j < |ps| && all[i] == ps[j] ==> psNow[j] == now[i]
    requires forall i :: 0 <= i < |all| && all[i] !in ps ==> now[i] == was[i]
    requires MovedUpTo(place, psWas, psNow, FirstFailure(place, psWas))
    ensures if FirstFailure(place, psWas) == |psWas| then InsideView(place, all, ps, was, now)
            else now == was <==> forall i :: 0 <= i < FirstFailure(place, psWas) ==> psWas[i].location == Inside
  {
    if FirstFailure(place, psWas) == |psWas| {
      WholeView(place, all, ps, was, psWas, now, psNow);
    } else {
      PartialView(place, psWas, psNow);
      SameOverall(all, ps, was, psWas, now, psNow);
    }
  }

  /** Runs the body and cleans up: the whole message is as it was before the transfer. */
  method Restore(hs: seq<PathHandler>, ghost all: seq<PathMessage>, ghost ps: seq<PathMessage>, edits: nat -> PathValue,
                 ghost was: seq<PathValue>, ghost psWas: seq<PathValue>)
    requires Responsible(hs, all, ps, was, psWas)
    modifies hs, ps
    ensures Values(all) == was
    ensures forall h :: h in hs ==> !h.tempdir
  {
    var paths := FieldsOf(hs);
    assert paths == ps;
    Edit(paths, edits);
    CleanupAll(hs, ps, psWas);
    SameOverall(all, ps, was, psWas, Values(all), Values(ps));
  }

  /** The message has changed exactly when a handled path has. */
  lemma SameOverall(all: seq<PathMessage>, ps: seq<PathMessage>, was: seq<PathValue>, psWas: seq<PathValue>,
                    now: seq<PathValue>, psNow: seq<PathValue>)
    requires |all| == |was| == |now| && |ps| == |psWas| == |psNow|
    requires forall j :: 0 <= j < |ps| ==> ps[j] in all
    requires forall i, j :: 0 <= i < |all| && 0 <= j < |ps| && all[i] == ps[j] ==> psWas[j] == was[i] && psNow[j] == now[i]
    requires forall i :: 0 <= i < |all| && all[i] !in ps ==> now[i] == was[i]
    ensures now == was <==> psNow == psWas
  {
    if now == was {
      forall j | 0 <= j < |ps| ensures psNow[j] == psWas[j] {
        var p := ps[j];
        assert p in all;
        var i :| 0 <= i < |all| && all[i] == p;
      }
    }
    if psNow == psWas {
      forall i | 0 <= i < |all| ensures now[i] == was[i] {
        if all[i] in ps {
          var j :| 0 <= j < |ps| && ps[j] == all[i];
        }
      }
    }
  }

  method FieldsOf(hs: seq<PathHandler>) returns (ps: seq<PathMessage>)
    ensures |ps| == |hs| && forall i :: 0 <= i < |hs| ==> ps[i] == hs[i].field
  {
    ps := [];
    for i := 0 to |hs|
      invariant |ps| == i && forall j :: 0 <= j < i ==> ps[j] == hs[j].field
    {
      ps := ps + [hs[i].field];
    }
  }

  lemma TwoPaths(first: PathMessage, second: PathMessage)
    ensures var fs := [Single(PathField(first)), Single(PathField(second))];
            AllPaths(Node(fs)) == Met(Node(fs)) == [first, second]
  {
    var fs := [Single(PathField(first)), Single(PathField(second))];
    assert AllInField(fs[0]) == AllPaths(PathField(first)) == [first] == Met(PathField(first)) == MetInField(fs[0]);
    assert AllInField(fs[1]) == AllPaths(PathField(second)) == [second] == Met(PathField(second)) == MetInField(fs[1]);
    assert fs[..1] == [fs[0]] && fs[..1][..0] == [];
    assert AllInFields(fs[..1]) == AllInFields([]) + [first] && MetInFields(fs[..1]) == MetInFields([]) + [first];
    assert AllInFields(fs) == AllInFields(fs[..1]) + [second] && MetInFields(fs) == MetInFields(fs[..1]) + [second];
  }

  lemma BothComplete(first: PathMessage, second: PathMessage)
    requires Complete(first.Value()) && Complete(second.Value())
    ensures CompleteOf([first, second]) == [first, second]
  {
    assert [first, second][..1] == [first] && [first][..0] == [];
    assert CompleteOf([first]) == CompleteOf([]) + [first];
  }

  /** Two files of which only the first can be copied: the message is left with the first one moved. */
  method FailedCopyLeavesMovedPath() returns (first: PathMessage, second: PathMessage, entered: bool)
    ensures !entered && first.Value() == PathValue("in", Inside) && second.Value() == PathValue("lost", Outside)
    ensures fresh(first) && fresh(second)
  {
    first := new PathMessage(PathValue("found", Outside));
    second := new PathMessage(PathValue("lost", Outside));
    entered := FailHalfway(first, second);
  }

  method FailHalfway(first: PathMessage, second: PathMessage) returns (entered: bool)
    requires first != second
    requires first.Value() == PathValue("found", Outside) && second.Value() == PathValue("lost", Outside)
    modifies first, second
    ensures !entered && first.Value() == PathValue("in", Inside) && second.Value() == PathValue("lost", Outside)
  {
    var m := Node([Single(PathField(first)), Single(PathField(second))]);
    var place: Placement := (path, direction) => if path == "lost" then None else Some("in");
    ghost var ps := [first, second];
    TwoPaths(first, second);
    BothComplete(first, second);
    ghost var was := Values(ps);
    assert was == [PathValue("found", Outside), PathValue("lost", Outside)];
    FirstFailureIs(place, was, 1);
    ghost var inside, handlers;
    entered, inside, handlers := CopyPathsIn(m, place, false, n => PathValue("", Unset));
    assert MovedUpTo(place, was, Values(ps), 1);
    assert Values(ps)[0] == Moved(place, Inside, was[0]) && Values(ps)[1] == was[1];
  }
}
