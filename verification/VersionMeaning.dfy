/** What the text of a version means: its numbers, the pattern it matches, and the specs its prefix selects. */
module VersionMeaning {
  import opened Basics
  import opened LkgmVersions
  import opened LkgmPublish

  // ------------------------------------------------------------- numbers

  function Power(n: nat): nat {
    if n == 0 then 1 else 10 * Power(n - 1)
  }

  /** A number is read in base ten: what stands before the last `|b|` digits counts for that many powers of ten. */
  lemma {:induction false} NumberMeans(a: string, b: string)
    requires AllDigits(a) && AllDigits(b)
    ensures AllDigits(a + b) && ToNat(a + b) == ToNat(a) * Power(|b|) + ToNat(b)
    decreases |b|
  {
    if b == "" {
      assert a + b == a;
    } else {
      var init, c := b[..|b| - 1], b[|b| - 1];
      assert (a + b)[..|a + b| - 1] == a + init && (a + b)[|a + b| - 1] == c;
      NumberMeans(a, init);
      Distribute(ToNat(a), Power(|init|), ToNat(init));
    }
  }

  lemma Distribute(x: nat, p: nat, y: nat)
    ensures 10 * (x * p + y) == x * (10 * p) + 10 * y
  {
    assert x * (10 * p) == 10 * (x * p);
  }

  lemma DigitMeans(c: char)
    requires '0' <= c <= '9'
    ensures AllDigits([c]) && ToNat([c]) == c as int - '0' as int
  {
    assert [c][..0] == "";
  }

  // ------------------------------------------------------------- the pattern

  /** `s` begins with three numbers between dots, none of which could be longer, and perhaps a revision. */
  ghost predicate Reads(s: string, i: Info) {
    exists rest, revision :: ReadsAs(s, i, rest, revision)
  }

  ghost predicate ReadsAs(s: string, i: Info, rest: string, revision: string) {
    && ValidInfo(i) && s == i.build + ("." + (i.branch + ("." + (i.patch + rest))))
    && (rest != "" ==> !IsDigit(rest[0]))
    && AllDigits(revision)
    && (if revision == "" then i.revision == 1 && !Revised(rest) else Starts(rest, revision) && i.revision == ToNat(revision))
  }

  /** `rest` begins with `-rc` and this number, which could not be longer. */
  ghost predicate Starts(rest: string, revision: string) {
    && |rest| >= 3 + |revision| && rest[..3] == "-rc" && rest[3..3 + |revision|] == revision
    && (|rest| > 3 + |revision| ==> !IsDigit(rest[3 + |revision|]))
  }

  /** `rest` begins with `-rc` and a digit. */
  predicate Revised(rest: string) {
    |rest| > 3 && rest[..3] == "-rc" && IsDigit(rest[3])
  }

  lemma DigitsDecide(s: string, d: string, rest: string)
    requires s == d + rest && AllDigits(d) && (rest != "" ==> !IsDigit(rest[0]))
    ensures Digits(s) == d && s[|d|..] == rest
  {
    DigitsOfNumber(d, rest);
  }

  lemma AfterNumberMeans(s: string, d: string, tail: string)
    requires IsNumber(d) && s == d + ("." + tail)
    ensures Digits(s) == d && AfterNumber(s, ".") == Some(tail)
  {
    AfterNumberOf(d, ".", tail);
  }

  /** What the pattern matches at the start of a string is what stands there. */
  lemma MatchMeans(s: string, i: Info)
    ensures MatchHere(s) == Some(i) <==> Reads(s, i)
  {
    if rest, revision :| ReadsAs(s, i, rest, revision) {
      ReadsIsMatched(s, i, rest, revision);
    }
    if MatchHere(s) == Some(i) {
      MatchedReads(s, i);
    }
  }

  lemma ReadsIsMatched(s: string, i: Info, rest: string, revision: string)
    requires ReadsAs(s, i, rest, revision)
    ensures MatchHere(s) == Some(i)
  {
    var s2 := i.patch + rest;
    var s1 := i.branch + ("." + s2);
    AfterNumberMeans(s, i.build, s1);
    AfterNumberMeans(s1, i.branch, s2);
    DigitsDecide(s2, i.patch, rest);
    RevisionMeans(rest, revision);
  }

  lemma RevisionMeans(rest: string, revision: string)
    requires AllDigits(revision)
    requires if revision == "" then !Revised(rest) else Starts(rest, revision)
    ensures RevisionAfter(rest) == revision
  {
    if revision != "" {
      var more := rest[3 + |revision|..];
      assert rest[3..] == revision + more;
      DigitsDecide(rest[3..], revision, more);
    } else if RC <= rest {
      assert rest[..3] == RC;
      assert rest[3..] == "" || !IsDigit(rest[3..][0]);
    }
  }

  lemma AfterNumberParts(s: string)
    requires AfterNumber(s, ".").Some?
    ensures IsNumber(Digits(s)) && s == Digits(s) + ("." + AfterNumber(s, ".").value)
  {
    var d := Digits(s);
    var after := s[|d|..];
    assert s == d + after && after == "." + after[1..] && after[1..] == s[|d| + 1..];
  }

  lemma RevisionParts(rest: string)
    ensures var revision := RevisionAfter(rest);
      AllDigits(revision) && if revision == "" then !Revised(rest) else Starts(rest, revision)
  {
    if RC <= rest {
      var tail := rest[3..];
      assert rest[..3] == RC && Digits(tail) == tail[..|Digits(tail)|];
    } else {
      RevisedHasMark(rest);
    }
  }

  lemma RevisedHasMark(rest: string)
    ensures Revised(rest) ==> RC <= rest
  {
    if |rest| > 3 && rest[..3] == RC {
      assert RC <= rest;
    }
  }

  /** The revision given after the numbers; empty if there is none. */
  function RevisionAfter(rest: string): string {
    if RC <= rest then Digits(rest[|RC|..]) else ""
  }

  lemma MatchUnfolds(s: string, i: Info)
    requires MatchHere(s) == Some(i)
    ensures AfterNumber(s, ".").Some? && AfterNumber(AfterNumber(s, ".").value, ".").Some?
    ensures var s1 := AfterNumber(s, ".").value; var s2 := AfterNumber(s1, ".").value;
      && ValidInfo(i) && i.build == Digits(s) && i.branch == Digits(s1) && i.patch == Digits(s2)
      && var revision := RevisionAfter(s2[|Digits(s2)|..]);
         i.revision == if revision == "" then 1 else ToNat(revision)
  {
  }

  lemma MatchedReads(s: string, i: Info)
    requires MatchHere(s) == Some(i)
    ensures Reads(s, i)
  {
    MatchUnfolds(s, i);
    var s1 := AfterNumber(s, ".").value;
    var s2 := AfterNumber(s1, ".").value;
    AfterNumberParts(s);
    AfterNumberParts(s1);
    var rest := s2[|Digits(s2)|..];
    assert s2 == Digits(s2) + rest;
    RevisionParts(rest);
    Reading(s, i, s1, s2, rest, RevisionAfter(rest));
  }

  lemma Reading(s: string, i: Info, s1: string, s2: string, rest: string, revision: string)
    requires ValidInfo(i) && s == i.build + ("." + s1) && s1 == i.branch + ("." + s2) && s2 == i.patch + rest
    requires rest != "" ==> !IsDigit(rest[0])
    requires AllDigits(revision) && i.revision == if revision == "" then 1 else ToNat(revision)
    requires if revision == "" then !Revised(rest) else Starts(rest, revision)
    ensures Reads(s, i)
  {
    assert ReadsAs(s, i, rest, revision);
  }

  /** The search finds the pattern where it matches first. */
  lemma {:induction false} SearchMeans(s: string)
    ensures Search(s).None? <==> forall k, i :: 0 <= k <= |s| ==> !Reads(s[k..], i)
    ensures Search(s).Some? ==>
      exists k :: 0 <= k <= |s| && Reads(s[k..], Search(s).value) && forall j, i :: 0 <= j < k ==> !Reads(s[j..], i)
  {
    assert s[0..] == s;
    forall i ensures MatchHere(s) == Some(i) <==> Reads(s, i) {
      MatchMeans(s, i);
    }
    if MatchHere(s).Some? {
      assert Reads(s[0..], MatchHere(s).value);
    } else if s != "" {
      var rest := s[1..];
      SearchMeans(rest);
      forall k | 1 <= k <= |s| ensures s[k..] == rest[k - 1..] {
      }
      if Search(rest).Some? {
        var k :| 0 <= k <= |rest| && Reads(rest[k..], Search(rest).value) && forall j, i :: 0 <= j < k ==> !Reads(rest[j..], i);
        assert s[k + 1..] == rest[k..];
        forall j, i | 0 <= j < k + 1 ensures !Reads(s[j..], i) {
          assert j > 0 ==> s[j..] == rest[j - 1..];
        }
        assert Reads(s[k + 1..], Search(s).value);
      } else {
        forall k, i | 0 <= k <= |s| ensures !Reads(s[k..], i) {
          assert k > 0 ==> s[k..] == rest[k - 1..];
        }
      }
    }
  }

  // ------------------------------------------------------------- the specs a publisher looks at

  /**
    Of the versions spelled as the program does, a publisher that increments
    the branch looks at those of its build, and of its branch too unless its
    own patch number is "0"; any other one looks at all.
   */
  lemma PrefixSelects(own: Info, incr: string, other: Info)
    requires ValidInfo(own) && ValidInfo(other)
    ensures BuildPrefix(own, incr) <= VersionString(other) <==>
      incr == "branch" ==> own.build == other.build && (own.patch == "0" || own.branch == other.branch)
  {
    var tail := other.branch + ("." + (other.patch + (RC + Print(other.revision))));
    var v := other.build + ("." + tail);
    assert VersionString(other) == v;
    NumberPrefix(own.build, other.build, tail);
    if own.build == other.build && incr == "branch" && own.patch != "0" {
      var tail2 := other.patch + (RC + Print(other.revision));
      NumberPrefix(own.branch, other.branch, tail2);
      assert tail == other.branch + ("." + tail2);
      var head := own.build + ".";
      assert BuildPrefix(own, incr) == head + (own.branch + ".") && v == head + tail;
      PrefixCancels(head, own.branch + ".", tail);
    } else if incr == "branch" && own.patch != "0" {
      assert own.build + "." <= BuildPrefix(own, incr);
    }
  }

  lemma PrefixCancels(head: string, a: string, b: string)
    ensures head + a <= head + b <==> a <= b
  {
    assert (head + a)[|head|..] == a && (head + b)[|head|..] == b;
    if head + a <= head + b {
      assert a == b[..|a|];
    }
  }

  /** A number with a dot begins a longer string only if it is the number there. */
  lemma NumberPrefix(a: string, b: string, tail: string)
    requires AllDigits(a) && AllDigits(b)
    ensures a + "." <= b + ("." + tail) <==> a == b
  {
    var x, y := a + ".", b + ("." + tail);
    DigitsOfNumber(a, ".");
    DigitsOfNumber(b, "." + tail);
    if a == b {
      assert y == x + tail;
    }
    if x <= y {
      var more := y[|x|..];
      assert y == x + more && x + more == a + ("." + more);
      DigitsOfNumber(a, "." + more);
    }
  }
}
