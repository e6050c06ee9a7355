/** LKGM candidate versions `X.Y.Z-rcN`: recognizing, printing, comparing and incrementing them. */
module LkgmVersions {
  import opened Basics

  predicate IsDigit(c: char) {
    '0' <= c <= '9'
  }

  predicate AllDigits(s: string) {
    forall i :: 0 <= i < |s| ==> IsDigit(s[i])
  }

  predicate IsNumber(s: string) {
    s != "" && AllDigits(s)
  }

  function DigitValue(c: char): (n: nat)
    requires IsDigit(c)
    ensures n < 10
  {
    (c - '0') as nat
  }

  function DigitChar(n: nat): (c: char)
    requires n < 10
    ensures IsDigit(c) && DigitValue(c) == n
  {
    '0' + n as char
  }

  function ToNat(s: string): nat
    requires AllDigits(s)
  {
    if s == "" then 0 else 10 * ToNat(s[..|s| - 1]) + DigitValue(s[|s| - 1])
  }

  function Print(n: nat): (s: string)
    ensures IsNumber(s)
  {
    if n < 10 then [DigitChar(n)] else Print(n / 10) + [DigitChar(n % 10)]
  }

  /** Printing and reading a number back gives the number. */
  lemma {:induction false} PrintRoundTrip(n: nat)
    ensures ToNat(Print(n)) == n
  {
    var s := Print(n);
    if n < 10 {
      assert s[..0] == "";
    } else {
      PrintRoundTrip(n / 10);
      assert s[..|s| - 1] == Print(n / 10);
    }
  }

  // ------------------------------------------------------------- recognizing a version

  /** The numbers as they were spelled, and the revision, which is 1 unless given. */
  datatype Info = Info(build: string, branch: string, patch: string, revision: nat)

  predicate ValidInfo(i: Info) {
    IsNumber(i.build) && IsNumber(i.branch) && IsNumber(i.patch)
  }

  /** The leading digits of a string. */
  function Digits(s: string): (d: string)
    ensures AllDigits(d) && |d| <= |s| && s[..|d|] == d
    ensures |d| < |s| ==> !IsDigit(s[|d|])
  {
    if s == "" || !IsDigit(s[0]) then "" else [s[0]] + Digits(s[1..])
  }

  /** What follows a number and a separator, if both are there. */
  function AfterNumber(s: string, separator: string): Option<string> {
    var d := Digits(s);
    if d != "" && separator <= s[|d|..] then Some(s[|d| + |separator|..]) else None
  }

  const RC := "-rc"

  /** The version pattern matched at the start of a string. */
  function MatchHere(s: string): (r: Option<Info>)
    ensures r.Some? ==> ValidInfo(r.value)
  {
    var s1 := AfterNumber(s, ".");
    if s1.None? then None else
    var s2 := AfterNumber(s1.value, ".");
    if s2.None? then None else
    var patch := Digits(s2.value);
    if patch == "" then None else
    var rest := s2.value[|patch|..];
    var revision := if RC <= rest then Digits(rest[|RC|..]) else "";
    Some(Info(Digits(s), Digits(s1.value), patch, if revision == "" then 1 else ToNat(revision)))
  }

  /** The leftmost match, as the regular-expression search finds it. */
  function Search(s: string): (r: Option<Info>)
    ensures r.Some? ==> ValidInfo(r.value)
  {
    if MatchHere(s).Some? then MatchHere(s)
    else if s == "" then None
    else Search(s[1..])
  }

  function VersionString(i: Info): string {
    i.build + ("." + (i.branch + ("." + (i.patch + (RC + Print(i.revision))))))
  }

  lemma {:induction false} DigitsOfNumber(d: string, rest: string)
    requires AllDigits(d) && (rest != "" ==> !IsDigit(rest[0]))
    ensures Digits(d + rest) == d && (d + rest)[|d|..] == rest
  {
    if d == "" {
      assert d + rest == rest;
    } else {
      assert (d + rest)[1..] == d[1..] + rest;
      DigitsOfNumber(d[1..], rest);
    }
  }

  lemma AfterNumberOf(d: string, separator: string, rest: string)
    requires IsNumber(d) && separator != "" && !IsDigit(separator[0])
    ensures Digits(d + (separator + rest)) == d
    ensures AfterNumber(d + (separator + rest), separator) == Some(rest)
  {
    var s := d + (separator + rest);
    DigitsOfNumber(d, separator + rest);
    assert s[|d|..] == separator + rest;
    assert s[|d| + |separator|..] == rest;
  }

  /** The last number with its revision. */
  lemma TailRoundTrip(patch: string, revision: nat)
    requires IsNumber(patch)
    ensures var s := patch + (RC + Print(revision));
      && Digits(s) == patch && RC <= s[|patch|..]
      && Digits(s[|patch|..][|RC|..]) == Print(revision)
  {
    var rev := Print(revision);
    var s := patch + (RC + rev);
    DigitsOfNumber(patch, RC + rev);
    assert s[|patch|..] == RC + rev && (RC + rev)[|RC|..] == rev;
    DigitsOfNumber(rev, "");
    assert rev + "" == rev;
  }

  /** A printed version is recognized as what was printed, whatever the spelling of its numbers. */
  lemma VersionRoundTrip(i: Info)
    requires ValidInfo(i)
    ensures Search(VersionString(i)) == Some(i)
  {
    var s3 := i.patch + (RC + Print(i.revision));
    var s2 := i.branch + ("." + s3);
    AfterNumberOf(i.build, ".", s2);
    AfterNumberOf(i.branch, ".", s3);
    TailRoundTrip(i.patch, i.revision);
    PrintRoundTrip(i.revision);
    assert MatchHere(VersionString(i)) == Some(i);
  }

  /** A name that is spelled as the program itself would spell it. */
  predicate Canonical(s: string) {
    Search(s).Some? && VersionString(Search(s).value) == s
  }

  // ------------------------------------------------------------- comparing

  /** The four numbers of a version, the most significant first. */
  datatype Key = Key(build: nat, branch: nat, patch: nat, revision: nat)

  function KeyOf(i: Info): Key
    requires ValidInfo(i)
  {
    Key(ToNat(i.build), ToNat(i.branch), ToNat(i.patch), i.revision)
  }

  predicate Below(x: Key, y: Key) {
    x.build < y.build || (x.build == y.build && (
      x.branch < y.branch || (x.branch == y.branch && (
        x.patch < y.patch || (x.patch == y.patch && x.revision < y.revision)))))
  }

  predicate AtMost(x: Key, y: Key) {
    x == y || Below(x, y)
  }

  /** The order on versions is total. */
  lemma TotalOrder(x: Key, y: Key, z: Key)
    ensures Below(x, y) || x == y || Below(y, x)
    ensures !(Below(x, y) && AtMost(y, x))
    ensures AtMost(x, y) && AtMost(y, z) ==> AtMost(x, z)
    ensures AtMost(x, y) && Below(y, z) ==> Below(x, z)
  {
  }

  /** The numbers of a version, the build first. */
  function Components(i: Info): seq<nat>
    requires ValidInfo(i)
  {
    [ToNat(i.build), ToNat(i.branch), ToNat(i.patch), i.revision]
  }

  /** Lists of numbers are compared at their first difference. */
  ghost predicate LexLess(a: seq<nat>, b: seq<nat>) {
    exists k :: 0 <= k < |a| && k < |b| && a[k] < b[k] && a[..k] == b[..k]
  }

  lemma BelowIsLexLess(i: Info, j: Info)
    requires ValidInfo(i) && ValidInfo(j)
    ensures Below(KeyOf(i), KeyOf(j)) <==> LexLess(Components(i), Components(j))
    ensures KeyOf(i) == KeyOf(j) <==> Components(i) == Components(j)
  {
    var a, b := Components(i), Components(j);
    assert a[..0] == b[..0] == [];
    assert a[..1] == [a[0]] && a[..2] == [a[0], a[1]] && a[..3] == [a[0], a[1], a[2]];
    assert b[..1] == [b[0]] && b[..2] == [b[0], b[1]] && b[..3] == [b[0], b[1], b[2]];
    if k :| 0 <= k < |a| && k < |b| && a[k] < b[k] && a[..k] == b[..k] {
      assert forall n :: 0 <= n < k ==> a[..k][n] == b[..k][n];
      assert forall n :: 0 <= n < k ==> a[n] == b[n];
    }
    if Below(KeyOf(i), KeyOf(j)) {
      var k := if a[0] < b[0] then 0 else if a[1] < b[1] then 1 else if a[2] < b[2] then 2 else 3;
      assert a[k] < b[k] && a[..k] == b[..k];
    }
  }

  predicate Named(s: string) {
    Search(s).Some?
  }

  function KeyOfName(s: string): Key
    requires Named(s)
  {
    KeyOf(Search(s).value)
  }

  // ------------------------------------------------------------- the candidate object

  class LkgmCandidateInfo {
    var build: string
    var branch: string
    var patch: string
    var revision: nat

    function Value(): Info
      reads this
    {
      Info(build, branch, patch, revision)
    }

    constructor (i: Info)
      ensures Value() == i
    {
      build, branch, patch, revision := i.build, i.branch, i.patch, i.revision;
    }

    /** The next candidate of the same version: strictly later, and its name reads back as it. */
    method IncrementVersion() returns (name: string)
      requires ValidInfo(Value())
      modifies this`revision
      ensures Value() == old(Value()).(revision := old(revision) + 1)
      ensures name == VersionString(Value()) && Search(name) == Some(Value())
      ensures Below(KeyOf(old(Value())), KeyOf(Value()))
    {
      revision := revision + 1;
      name := VersionString(Value());
      VersionRoundTrip(Value());
    }
  }

  // ------------------------------------------------------------- the latest spec

  /** `l` is a greatest element of `specs`. */
  predicate IsLatest(specs: seq<string>, l: string) {
    l in specs && Named(l) && forall s :: s in specs ==> Named(s) && AtMost(KeyOfName(s), KeyOfName(l))
  }

  /** `l` is one of the specs, all of them are versions, and none of them has greater numbers. */
  ghost predicate NoneLater(specs: seq<string>, l: string) {
    && l in specs
    && forall s :: s in specs ==>
         Search(s).Some? && Search(l).Some? && !LexLess(Components(Search(l).value), Components(Search(s).value))
  }

  lemma LatestIsNoneLater(specs: seq<string>, l: string)
    ensures IsLatest(specs, l) <==> NoneLater(specs, l)
  {
    forall s | s in specs && Named(s) && Named(l)
      ensures AtMost(KeyOfName(s), KeyOfName(l)) <==> !LexLess(Components(Search(l).value), Components(Search(s).value))
    {
      BelowIsLexLess(Search(l).value, Search(s).value);
      TotalOrder(KeyOfName(s), KeyOfName(l), KeyOfName(s));
    }
  }

  /** The first position of a greatest key. */
  method FirstMax(keys: seq<Key>) returns (best: nat)
    requires keys != []
    ensures best < |keys|
    ensures forall j :: 0 <= j < |keys| ==> AtMost(keys[j], keys[best])
    ensures forall j :: 0 <= j < best ==> Below(keys[j], keys[best])
  {
    best := 0;
    for i := 1 to |keys|
      invariant 0 <= best < i
      invariant forall j :: 0 <= j < i ==> AtMost(keys[j], keys[best])
      invariant forall j :: 0 <= j < best ==> Below(keys[j], keys[best])
    {
      if Below(keys[best], keys[i]) {
        best := i;
      }
    }
  }

  /** The first of the greatest specs; None for no specs; an error if a name is no version. */
  method LatestSpecFromList(specs: seq<string>) returns (r: Result<Option<string>, string>)
    ensures r.Err? <==> exists s :: s in specs && !Named(s)
    ensures r.Err? ==> r.error in specs && !Named(r.error)
    ensures r.Ok? ==> (r.value.None? <==> specs == [])
    ensures r.Ok? && r.value.Some? ==> IsLatest(specs, r.value.value)
    ensures r.Ok? && r.value.Some? ==>
      exists i :: 0 <= i < |specs| && specs[i] == r.value.value
        && forall j :: 0 <= j < i ==> Below(KeyOfName(specs[j]), KeyOfName(specs[i]))
    ensures r.Ok? && r.value.Some? ==> NoneLater(specs, r.value.value)
  {
    var keys: seq<Key> := [];
    for i := 0 to |specs|
      invariant |keys| == i
      invariant forall j :: 0 <= j < i ==> Named(specs[j]) && keys[j] == KeyOfName(specs[j])
    {
      var s := specs[i];
      if !Named(s) {
        assert s in specs;
        return Err(s);
      }
      keys := keys + [KeyOfName(s)];
    }
    if specs == [] {
      return Ok(None);
    }
    var best := FirstMax(keys);
    var l := specs[best];
    assert l in specs;
    forall s | s in specs ensures Named(s) && AtMost(KeyOfName(s), KeyOfName(l)) {
      var j :| 0 <= j < |specs| && specs[j] == s;
      assert keys[j] == KeyOfName(specs[j]);
    }
    LatestIsNoneLater(specs, l);
    r := Ok(Some(l));
  }
}
