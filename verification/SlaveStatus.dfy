/** Polling the slave builds of a master until all expected ones are done. */
module SlaveStatusPolling {
  import opened Basics

  type Builder = string

  datatype CidbStatus = Fail | Pass | Inflight | Missing | Aborted | Planned | Waiting | SkippedBuild | Forgiven
  datatype BucketStatus = Canceled | Failure | InfraFailure | Scheduled | Started | Success

  predicate CompletedStatus(s: CidbStatus) {
    s.Pass? || s.Fail? || s.Aborted? || s.SkippedBuild? || s.Forgiven?
  }

  /** What one poll returns; `buckets` is given for builds scheduled through Buildbucket. */
  datatype Poll = Poll(
    experimental: set<Builder>,
    cidb: map<Builder, CidbStatus>,
    buckets: Option<map<Builder, Option<BucketStatus>>>,
    scheduled: seq<Builder>)

  function Without(bs: seq<Builder>, dropped: set<Builder>): (r: seq<Builder>)
    ensures forall b :: b in r <==> b in bs && b !in dropped
  {
    if bs == [] then []
    else
      var b := bs[0];
      (if b in dropped then [] else [b]) + Without(bs[1..], dropped)
  }

  /** Builds newly found complete: expected ones by their status, and all Buildbucket successes. */
  function NewlyCompleted(p: Poll, expected: seq<Builder>, completed: set<Builder>): set<Builder> {
    (set b | b in p.cidb && b !in completed && CompletedStatus(p.cidb[b]) && b in expected)
      + (if p.buckets.None? then {} else
           set b | b in p.buckets.value && b !in completed && p.buckets.value[b] == Some(Success))
  }

  function AllBuilders(p: Poll, known: seq<Builder>): seq<Builder> {
    if p.buckets.Some? then p.scheduled else known
  }

  function ExpectedAt(p: Poll, known: seq<Builder>): seq<Builder> {
    Without(AllBuilders(p, known), p.experimental)
  }

  // ------------------------------------------------------------- runs of polls

  /** The builders known after a sequence of polls. */
  function Known(polls: seq<Poll>, builders: seq<Builder>): seq<Builder>
    decreases |polls|
  {
    if polls == [] then builders else AllBuilders(polls[|polls| - 1], Known(polls[..|polls| - 1], builders))
  }

  /** The builders expected at the `n`th poll. */
  function Expected(polls: seq<Poll>, builders: seq<Builder>, n: nat): seq<Builder>
    requires n < |polls|
  {
    ExpectedAt(polls[n], Known(polls[..n], builders))
  }

  /** The completed builds after a sequence of polls. */
  function After(polls: seq<Poll>, builders: seq<Builder>): set<Builder>
    decreases |polls|
  {
    if polls == [] then {}
    else
      var n := |polls| - 1;
      var before := After(polls[..n], builders);
      before + NewlyCompleted(polls[n], Expected(polls, builders, n), before)
  }

  /** Every poll expects the same builders. */
  ghost predicate SteadyExpectation(polls: seq<Poll>, builders: seq<Builder>, expected: seq<Builder>) {
    forall n :: 0 <= n < |polls| ==> Expected(polls, builders, n) == expected
  }

  /** Every Buildbucket success is one of an expected builder. */
  ghost predicate OnlyExpectedSucceed(polls: seq<Poll>, expected: seq<Builder>) {
    forall p, b :: p in polls && p.buckets.Some? && b in p.buckets.value && p.buckets.value[b] == Some(Success)
      ==> b in expected
  }

  ghost predicate AllDone(expected: seq<Builder>, completed: set<Builder>) {
    forall b :: b in expected ==> b in completed
  }

  /** A build counted as complete is never dropped again. */
  lemma {:induction false} CompletedOnlyGrows(polls: seq<Poll>, builders: seq<Builder>, n: nat)
    requires n <= |polls|
    ensures After(polls[..n], builders) <= After(polls, builders)
    decreases |polls|
  {
    if n < |polls| {
      assert polls[..|polls| - 1][..n] == polls[..n];
      CompletedOnlyGrows(polls[..|polls| - 1], builders, n);
    } else {
      assert polls[..n] == polls;
    }
  }

  lemma SteadyPrefix(polls: seq<Poll>, builders: seq<Builder>, expected: seq<Builder>)
    requires polls != [] && SteadyExpectation(polls, builders, expected)
    ensures SteadyExpectation(polls[..|polls| - 1], builders, expected)
  {
    var init := polls[..|polls| - 1];
    forall n | 0 <= n < |init| ensures Expected(init, builders, n) == expected {
      assert init[..n] == polls[..n];
      assert Expected(polls, builders, n) == expected;
    }
  }

  /** The completed builds stay within the expected ones exactly when no other builder succeeds in Buildbucket. */
  lemma {:induction false} StaysExpectedExactlyWhen(polls: seq<Poll>, builders: seq<Builder>, expected: seq<Builder>)
    requires SteadyExpectation(polls, builders, expected)
    ensures After(polls, builders) <= Elements(expected) <==> OnlyExpectedSucceed(polls, expected)
    decreases |polls|
  {
    if polls != [] {
      var init, p := polls[..|polls| - 1], polls[|polls| - 1];
      assert p in polls && forall q :: q in polls <==> q in init || q == p;
      SteadyPrefix(polls, builders, expected);
      StaysExpectedExactlyWhen(init, builders, expected);
      var before := After(init, builders);
      assert Expected(polls, builders, |polls| - 1) == expected;
      if After(polls, builders) <= Elements(expected) {
        forall q, b | q in polls && q.buckets.Some? && b in q.buckets.value && q.buckets.value[b] == Some(Success)
          ensures b in expected
        {
          if q !in init {
            assert b in before || b in NewlyCompleted(p, expected, before);
            assert b in Elements(expected);
          }
        }
      }
      if OnlyExpectedSucceed(polls, expected) {
        forall b | b in After(polls, builders) ensures b in Elements(expected) {
        }
      }
    }
  }

  /** Comparing the two numbers is then the same as asking whether every expected build is done. */
  lemma CountTestMeansAllDone(polls: seq<Poll>, builders: seq<Builder>, expected: seq<Builder>)
    requires SteadyExpectation(polls, builders, expected) && OnlyExpectedSucceed(polls, expected) && NoDup(expected)
    ensures |After(polls, builders)| == |expected| <==> AllDone(expected, After(polls, builders))
  {
    StaysExpectedExactlyWhen(polls, builders, expected);
    NoDupCardinality(expected);
    var done := After(polls, builders);
    if |done| == |expected| {
      SameSizeSubset(done, Elements(expected));
    }
    if AllDone(expected, done) {
      assert done == Elements(expected);
    }
  }

  /** Once every expected build is done, the two numbers say so exactly when no other builder has succeeded. */
  lemma FinishIsNoticedExactlyWhen(polls: seq<Poll>, builders: seq<Builder>, expected: seq<Builder>)
    requires SteadyExpectation(polls, builders, expected) && NoDup(expected)
    requires AllDone(expected, After(polls, builders))
    ensures |After(polls, builders)| == |expected| <==> OnlyExpectedSucceed(polls, expected)
  {
    StaysExpectedExactlyWhen(polls, builders, expected);
    NoDupCardinality(expected);
    var done := After(polls, builders);
    assert Elements(expected) <= done;
    if |done| == |expected| {
      SameSizeSubset(Elements(expected), done);
    }
    assert done <= Elements(expected) ==> done == Elements(expected);
  }

  /** The two numbers agree exactly when as many other builds are complete as expected ones are not. */
  lemma CountTestCompares(completed: set<Builder>, expected: seq<Builder>)
    requires NoDup(expected)
    ensures |completed| == |expected| <==> |completed - Elements(expected)| == |Elements(expected) - completed|
  {
    NoDupCardinality(expected);
    var e := Elements(expected);
    assert completed == (completed - e) + (completed * e);
    assert e == (e - completed) + (completed * e);
  }

  lemma SameSizeSubset(a: set<Builder>, b: set<Builder>)
    requires a <= b && |a| == |b|
    ensures a == b
  {
    SubsetCardinality(a, b);
    assert |b - a| == |b| - |a|;
  }

  /** A success of an experimental builder is counted, so one unfinished expected build goes unnoticed. */
  lemma UnexpectedSuccessFoolsTheTest(a: Builder, b: Builder)
    requires a != b
    ensures var p := Poll({a}, map[], Some(map[a := Some(Success), b := Some(Started)]), [a, b]);
      && Expected([p], [], 0) == [b]
      && After([p], []) == {a}
      && |After([p], [])| == |Expected([p], [], 0)|
  {
    var p := Poll({a}, map[], Some(map[a := Some(Success), b := Some(Started)]), [a, b]);
    assert [a, b][1..] == [b] && [b][1..] == [];
    assert Without([b], {a}) == [b] + Without([], {a}) == [b];
    assert Without([a, b], {a}) == [] + Without([b], {a});
    assert [p][..0] == [];
    assert NewlyCompleted(p, [b], {}) == {a};
  }

  // ------------------------------------------------------------- what the completed builds are

  /** At the `n`th poll `b` is one of the builders last listed. */
  ghost predicate KnownAt(polls: seq<Poll>, builders: seq<Builder>, n: int, b: Builder)
    requires 0 <= n < |polls|
  {
    || (b in builders && forall j :: 0 <= j <= n ==> polls[j].buckets.None?)
    || exists k :: 0 <= k <= n && polls[k].buckets.Some? && b in polls[k].scheduled
         && forall j :: k < j <= n ==> polls[j].buckets.None?
  }

  /** At the `n`th poll `b` is reported finished, and is not to be disregarded. */
  ghost predicate FinishedAt(polls: seq<Poll>, builders: seq<Builder>, n: int, b: Builder)
    requires 0 <= n < |polls|
  {
    var p := polls[n];
    || (b in p.cidb && p.cidb[b] in {Pass, Fail, Aborted, SkippedBuild, Forgiven}
          && KnownAt(polls, builders, n, b) && b !in p.experimental)
    || (p.buckets.Some? && b in p.buckets.value && p.buckets.value[b] == Some(Success))
  }

  lemma {:induction false} KnownMeans(polls: seq<Poll>, builders: seq<Builder>, n: nat, b: Builder)
    requires n < |polls|
    ensures b in Known(polls[..n + 1], builders) <==> KnownAt(polls, builders, n, b)
  {
    assert polls[..n + 1][..n] == polls[..n];
    if n > 0 {
      KnownMeans(polls, builders, n - 1, b);
    }
  }

  /** The builders expected at a poll are those last listed that are not experimental. */
  lemma ExpectedMeans(polls: seq<Poll>, builders: seq<Builder>, n: nat, b: Builder)
    requires n < |polls|
    ensures b in Expected(polls, builders, n) <==> KnownAt(polls, builders, n, b) && b !in polls[n].experimental
  {
    KnownMeans(polls, builders, n, b);
    assert polls[..n + 1][..n] == polls[..n];
  }

  /** Later polls do not change what an earlier one reported. */
  lemma FinishedBefore(polls: seq<Poll>, builders: seq<Builder>, n: nat, b: Builder)
    requires n < |polls| - 1
    ensures FinishedAt(polls[..|polls| - 1], builders, n, b) <==> FinishedAt(polls, builders, n, b)
  {
    var init := polls[..|polls| - 1];
    KnownMeans(polls, builders, n, b);
    KnownMeans(init, builders, n, b);
    assert init[..n + 1] == polls[..n + 1] && init[n] == polls[n];
  }

  lemma LastPoll(polls: seq<Poll>, builders: seq<Builder>, b: Builder)
    requires polls != []
    ensures b in After(polls, builders) <==>
      b in After(polls[..|polls| - 1], builders) || FinishedAt(polls, builders, |polls| - 1, b)
  {
    ExpectedMeans(polls, builders, |polls| - 1, b);
  }

  /** A build is counted as complete exactly when some poll so far has reported it finished. */
  lemma {:induction false} CompletedExactlyWhen(polls: seq<Poll>, builders: seq<Builder>, b: Builder)
    ensures b in After(polls, builders) <==> exists n :: 0 <= n < |polls| && FinishedAt(polls, builders, n, b)
    decreases |polls|
  {
    if polls != [] {
      var last := |polls| - 1;
      var init := polls[..last];
      CompletedExactlyWhen(init, builders, b);
      LastPoll(polls, builders, b);
      forall n | 0 <= n < last ensures FinishedAt(init, builders, n, b) <==> FinishedAt(polls, builders, n, b) {
        FinishedBefore(polls, builders, n, b);
      }
    }
  }

  /** Each expected builder is listed as often as among the builders. */
  lemma {:induction false} WithoutCounts(bs: seq<Builder>, dropped: set<Builder>, b: Builder)
    ensures multiset(Without(bs, dropped))[b] == if b in dropped then 0 else multiset(bs)[b]
  {
    if bs != [] {
      WithoutCounts(bs[1..], dropped, b);
      assert bs == [bs[0]] + bs[1..];
    }
  }

  // ------------------------------------------------------------- the object that polls

  class SlaveStatus {
    var allBuilders: seq<Builder>
    var experimental: set<Builder>
    var completedBuilds: set<Builder>
    var missingBuilds: set<Builder>
    /** The builders the object was created with, and what it has been told since. */
    ghost var builders: seq<Builder>
    ghost var polls: seq<Poll>

    /** The fields are what the polls so far make of them. */
    ghost predicate Valid()
      reads this
    {
      && polls != []
      && allBuilders == Known(polls, builders) && experimental == polls[|polls| - 1].experimental
      && completedBuilds == After(polls, builders)
    }

    constructor (builders: seq<Builder>, first: Poll)
      ensures Valid() && this.builders == builders && polls == [first]
    {
      allBuilders, experimental, completedBuilds, missingBuilds := builders, {}, {}, {};
      this.builders, polls := builders, [];
      new;
      TakePoll(first);
    }

    function ExpectedBuilders(): seq<Builder>
      reads this
    {
      Without(allBuilders, experimental)
    }

    /** One poll: finished builds stay finished, whatever is reported about them later. */
    method UpdateSlaveStatus(p: Poll)
      requires Valid()
      modifies this
      ensures Valid() && builders == old(builders) && polls == old(polls) + [p]
      ensures p.buckets.None? ==>
        forall b :: b in missingBuilds <==> b in ExpectedBuilders() && b !in p.cidb && b !in old(completedBuilds)
      ensures p.buckets.Some? ==>
        forall b :: b in missingBuilds <==>
          b in p.buckets.value && p.buckets.value[b] == None && b !in old(completedBuilds)
    {
      TakePoll(p);
    }

    /** The update itself, which the constructor performs too. */
    method TakePoll(p: Poll)
      requires allBuilders == Known(polls, builders) && completedBuilds == After(polls, builders)
      modifies this
      ensures Valid() && builders == old(builders) && polls == old(polls) + [p]
      ensures p.buckets.None? ==>
        forall b :: b in missingBuilds <==> b in ExpectedBuilders() && b !in p.cidb && b !in old(completedBuilds)
      ensures p.buckets.Some? ==>
        forall b :: b in missingBuilds <==>
          b in p.buckets.value && p.buckets.value[b] == None && b !in old(completedBuilds)
    {
      experimental := p.experimental;
      if p.buckets.Some? {
        allBuilders := p.scheduled;
        missingBuilds := set b | b in p.buckets.value && b !in completedBuilds && p.buckets.value[b] == None;
      } else {
        missingBuilds := Elements(ExpectedBuilders()) - p.cidb.Keys - completedBuilds;
      }
      completedBuilds := completedBuilds + NewlyCompleted(p, ExpectedBuilders(), completedBuilds);
      ghost var n := |polls|;
      polls := polls + [p];
      assert polls[..n] == old(polls);
    }

    /** Whether all is done, as far as the numbers tell. */
    method Completed() returns (done: bool)
      requires Valid()
      ensures done <==> |completedBuilds| == |ExpectedBuilders()|
      ensures NoDup(ExpectedBuilders()) ==> var expected := Elements(ExpectedBuilders());
        (done <==> |completedBuilds - expected| == |expected - completedBuilds|)
      ensures SteadyExpectation(polls, builders, ExpectedBuilders()) && NoDup(ExpectedBuilders()) ==>
        && (OnlyExpectedSucceed(polls, ExpectedBuilders()) ==> (done <==> AllDone(ExpectedBuilders(), completedBuilds)))
        && (AllDone(ExpectedBuilders(), completedBuilds) ==> (done <==> OnlyExpectedSucceed(polls, ExpectedBuilders())))
    {
      done := |completedBuilds| == |ExpectedBuilders()|;
      ghost var expected := ExpectedBuilders();
      if NoDup(expected) {
        CountTestCompares(completedBuilds, expected);
      }
      if SteadyExpectation(polls, builders, expected) && NoDup(expected) {
        if OnlyExpectedSucceed(polls, expected) {
          CountTestMeansAllDone(polls, builders, expected);
        }
        if AllDone(expected, completedBuilds) {
          FinishIsNoticedExactlyWhen(polls, builders, expected);
        }
      }
    }
  }
}
