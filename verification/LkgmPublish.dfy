/**
  Racing publishers of LKGM candidates: each refreshes its view of the shared
  spec directory, picks the next version, and pushes; a refused push is retried.
 */
module LkgmPublish {
  import opened Basics
  import opened LkgmVersions

  const NUM_RETRIES: nat := 20

  // ------------------------------------------------------------- picking a version

  /** The later of the latest spec and the own version; the spec wins a tie. */
  function Rebase(info: Info, latest: Option<string>): Info
    requires ValidInfo(info) && (latest.Some? ==> Named(latest.value))
  {
    if latest.None? then info
    else if Below(KeyOfName(latest.value), KeyOf(info)) then info
    else Search(latest.value).value
  }

  /** The next version: incremented only when its name is that of the latest spec. */
  function NextInfo(info: Info, latest: Option<string>, dryRun: bool): Info {
    if latest == Some(VersionString(info)) && !dryRun then info.(revision := info.revision + 1) else info
  }

  function Propose(info: Info, latest: Option<string>, dryRun: bool): Info
    requires ValidInfo(info) && (latest.Some? ==> Named(latest.value))
  {
    NextInfo(Rebase(info, latest), latest, dryRun)
  }

  /**
    The proposed version is later than every spec seen exactly when the own
    version already is, or the latest spec is spelled canonically and this is
    no dry run.  A spec without revision suffix, say, is parsed as revision 1
    but not recognized as the name to increment.
   */
  lemma ProposalIsLaterExactlyWhen(info: Info, specs: seq<string>, latest: string, dryRun: bool)
    requires ValidInfo(info) && IsLatest(specs, latest)
    ensures var v := Propose(info, Some(latest), dryRun);
      && ValidInfo(v)
      && ((forall s :: s in specs ==> Below(KeyOfName(s), KeyOf(v))) <==>
            Below(KeyOfName(latest), KeyOf(info)) || (Canonical(latest) && !dryRun))
  {
    var base, v := Rebase(info, Some(latest)), Propose(info, Some(latest), dryRun);
    VersionRoundTrip(base);
    forall s | s in specs && Below(KeyOfName(latest), KeyOf(v)) ensures Below(KeyOfName(s), KeyOf(v)) {
      TotalOrder(KeyOfName(s), KeyOfName(latest), KeyOf(v));
    }
  }

  /** A spec without revision suffix counts as revision 1, and no dry run is needed for revision 1 to be proposed again. */
  lemma UnsuffixedSpecIsNotPassed(i: Info)
    requires ValidInfo(i) && i.revision == 1
    ensures var s := i.build + ("." + (i.branch + ("." + i.patch)));
      && IsLatest([s], s) && !Canonical(s) && KeyOfName(s) == KeyOf(i)
      && Propose(i, Some(s), false) == i && !Below(KeyOfName(s), KeyOf(i))
  {
    var s2 := i.branch + ("." + i.patch);
    var s := i.build + ("." + s2);
    AfterNumberOf(i.build, ".", s2);
    AfterNumberOf(i.branch, ".", i.patch);
    DigitsOfNumber(i.patch, "");
    assert i.patch + "" == i.patch;
    assert MatchHere(s) == Some(i);
    assert |VersionString(i)| > |s|;
  }

  /** The class of specs a publisher looks at. */
  function BuildPrefix(info: Info, incr: string): string {
    if incr == "branch" then
      if info.patch == "0" then info.build + "." else info.build + "." + info.branch + "."
    else ""
  }

  lemma OwnPrefix(info: Info, incr: string)
    ensures BuildPrefix(info, incr) <= VersionString(info)
  {
    var tail := "." + (info.patch + (RC + Print(info.revision)));
    assert VersionString(info) == (info.build + ".") + (info.branch + tail);
    assert VersionString(info) == (info.build + "." + info.branch + ".") + tail[1..];
  }

  function WithPrefix(specs: seq<string>, prefix: string): (r: seq<string>)
    ensures forall s :: s in r <==> s in specs && prefix <= s
  {
    if specs == [] then []
    else
      var s := specs[0];
      (if prefix <= s then [s] else []) + WithPrefix(specs[1..], prefix)
  }

  // ------------------------------------------------------------- the race

  type Pid = int

  /** `Rehearsed` is how a dry run ends, `Broken` an encounter with a name that is no version. */
  datatype Phase =
    | Stale
    | Refreshed
    | Published(version: string)
    | Rehearsed(version: string)
    | Skipped
    | Broken
    | GaveUp

  datatype Publisher = Publisher(
    info: Info,
    incr: string,
    dryRun: bool,
    attempts: nat,
    seen: seq<string>,          // specs of the same prefix at the last refresh
    latest: Option<string>,
    phase: Phase)

  datatype Race = Race(upstream: seq<string>, pubs: map<Pid, Publisher>)

  datatype Action =
    | Refresh(p: Pid, latest: Option<string>)
    | Push(p: Pid, healthy: bool)       // an unhealthy push fails for another reason
    | Trip(p: Pid, rebased: bool)       // an attempt that fails before a version is picked
    | Skip(p: Pid)                      // the checkout has been built already
    | Break(p: Pid)                     // a name cannot be compared

  function Retry(q: Publisher, info: Info): Publisher {
    q.(info := info, attempts := q.attempts + 1, phase := if q.attempts < NUM_RETRIES then Stale else GaveUp)
  }

  predicate LatestOf(specs: seq<string>, latest: Option<string>) {
    if latest.Some? then IsLatest(specs, latest.value) else specs == []
  }

  predicate WellFormed(q: Publisher) {
    ValidInfo(q.info) && (q.phase.Refreshed? ==> LatestOf(q.seen, q.latest))
  }

  predicate AllNamed(specs: seq<string>) {
    forall s :: s in specs ==> Named(s)
  }

  /** The specs a publisher would see now. */
  function Listing(q: Publisher, upstream: seq<string>): seq<string> {
    WithPrefix(upstream, BuildPrefix(q.info, q.incr))
  }

  /** The outcome of a push: refused if the version is there already, without effect in a dry run. */
  function Pushed(r: Race, p: Pid, healthy: bool): Race
    requires p in r.pubs && WellFormed(r.pubs[p]) && r.pubs[p].phase.Refreshed?
  {
    var q := r.pubs[p];
    var info := Propose(q.info, q.latest, q.dryRun);
    var v := VersionString(info);
    if !healthy || (!q.dryRun && v in r.upstream) then r.(pubs := r.pubs[p := Retry(q, info)])
    else if q.dryRun then r.(pubs := r.pubs[p := q.(info := info, phase := Rehearsed(v))])
    else Race(r.upstream + [v], r.pubs[p := q.(info := info, phase := Published(v))])
  }

  /** The race after an action, if the action is possible. */
  function Next(r: Race, a: Action): Option<Race> {
    if a.p !in r.pubs || !WellFormed(r.pubs[a.p]) then None
    else
      var q := r.pubs[a.p];
      match a
      case Refresh(p, latest) =>
        var specs := Listing(q, r.upstream);
        if q.phase.Stale? && LatestOf(specs, latest) then
          Some(r.(pubs := r.pubs[p := q.(seen := specs, latest := latest, phase := Refreshed)]))
        else None
      case Push(p, healthy) =>
        if q.phase.Refreshed? then Some(Pushed(r, p, healthy)) else None
      case Trip(p, rebased) =>
        if q.phase.Refreshed? then
          Some(r.(pubs := r.pubs[p := Retry(q, if rebased then Rebase(q.info, q.latest) else q.info)]))
        else if q.phase.Stale? then Some(r.(pubs := r.pubs[p := Retry(q, q.info)]))
        else None
      case Skip(p) =>
        if q.phase.Refreshed? then Some(r.(pubs := r.pubs[p := q.(phase := Skipped)])) else None
      case Break(p) =>
        if q.phase.Stale? && !AllNamed(Listing(q, r.upstream)) then
          Some(r.(pubs := r.pubs[p := q.(phase := Broken)]))
        else None
  }

  ghost predicate Step(r: Race, a: Action, r': Race) {
    Next(r, a) == Some(r')
  }

  /** Publishers about to start. */
  ghost predicate Start(r: Race) {
    forall p :: p in r.pubs ==> WellFormed(r.pubs[p]) && r.pubs[p].attempts == 0 && r.pubs[p].phase.Stale?
  }

  /** The spec directory has only grown, and no spec was published twice. */
  ghost predicate SafeUpstream(up0: seq<string>, up: seq<string>) {
    && up0 <= up
    && (forall s :: s in up ==> Canonical(s))
    && (NoDup(up0) ==> NoDup(up))
  }

  /** A publisher keeps to its attempts, and what it published is later than all it had seen. */
  ghost predicate SafePublisher(up0: seq<string>, up: seq<string>, q: Publisher) {
    && WellFormed(q)
    && q.attempts <= (if q.phase.GaveUp? then 21 else 20)
    && (q.phase.Refreshed? ==> forall s :: s in q.seen ==> Canonical(s))
    && (q.phase.Published? ==> !q.dryRun && Earned(up0, up, q))
  }

  ghost predicate Earned(up0: seq<string>, up: seq<string>, q: Publisher)
    requires q.phase.Published?
  {
    var v := q.phase.version;
    && v in up && v !in up0 && Named(v)
    && forall s :: s in q.seen ==> Named(s) && Below(KeyOfName(s), KeyOfName(v))
  }

  /** No two publishers share a version. */
  ghost predicate DistinctVersions(pubs: map<Pid, Publisher>) {
    forall p, q :: p in pubs && q in pubs && p != q && pubs[p].phase.Published? && pubs[q].phase.Published?
      ==> pubs[p].phase.version != pubs[q].phase.version
  }

  ghost predicate Safe(r0: Race, r: Race) {
    && SafeUpstream(r0.upstream, r.upstream)
    && r.pubs.Keys == r0.pubs.Keys
    && (forall p :: p in r.pubs ==> SafePublisher(r0.upstream, r.upstream, r.pubs[p]))
    && DistinctVersions(r.pubs)
  }

  ghost predicate Run(r0: Race, acts: seq<Action>, r: Race)
    decreases |acts|
  {
    if acts == [] then r == r0 && Start(r0)
    else exists m :: RunStep(r0, acts, m, r)
  }

  ghost predicate RunStep(r0: Race, acts: seq<Action>, m: Race, r: Race)
    requires acts != []
    decreases |acts|, 0
  {
    && Run(r0, acts[..|acts| - 1], m)
    && Step(m, acts[|acts| - 1], r)
  }

  /** What a refreshed publisher proposes is canonical and later than all it saw. */
  lemma ProposalIsLater(q: Publisher)
    requires WellFormed(q) && q.phase.Refreshed? && (forall s :: s in q.seen ==> Canonical(s))
    ensures var info := Propose(q.info, q.latest, false);
      && ValidInfo(info) && Canonical(VersionString(info)) && Search(VersionString(info)) == Some(info)
      && forall s :: s in q.seen ==> Named(s) && Below(KeyOfName(s), KeyOf(info))
  {
    if q.latest.Some? {
      ProposalIsLaterExactlyWhen(q.info, q.seen, q.latest.value, false);
    }
    VersionRoundTrip(Propose(q.info, q.latest, false));
  }

  /** The publisher `q` got its version accepted. */
  ghost predicate Accepted(q: Publisher, up: seq<string>, q': Publisher) {
    && WellFormed(q) && q.phase.Refreshed? && !q.dryRun
    && var info := Propose(q.info, q.latest, false);
       var v := VersionString(info);
       v !in up && q' == q.(info := info, phase := Published(v))
  }

  /** What a step changes: one publisher, and the directory only by an accepted version. */
  lemma StepShape(r: Race, a: Action, r': Race)
    requires Step(r, a, r')
    ensures a.p in r.pubs && a.p in r'.pubs && r'.pubs == r.pubs[a.p := r'.pubs[a.p]]
    ensures if Accepted(r.pubs[a.p], r.upstream, r'.pubs[a.p]) then
              r'.upstream == r.upstream + [r'.pubs[a.p].phase.version]
            else r'.upstream == r.upstream && !r'.pubs[a.p].phase.Published?
  {
  }

  lemma AcceptedIsSafe(up0: seq<string>, up: seq<string>, q: Publisher, q': Publisher)
    requires SafePublisher(up0, up, q) && SafeUpstream(up0, up) && Accepted(q, up, q')
    ensures var v := q'.phase.version;
            SafeUpstream(up0, up + [v]) && SafePublisher(up0, up + [v], q')
  {
    ProposalIsLater(q);
    var up' := up + [q'.phase.version];
    assert forall s :: s in up' <==> s in up || s == q'.phase.version;
  }

  /** A publisher is safe after a step of its own that is not accepted. */
  lemma UnacceptedIsSafe(up0: seq<string>, r: Race, a: Action, r': Race)
    requires Step(r, a, r') && SafePublisher(up0, r.upstream, r.pubs[a.p]) && SafeUpstream(up0, r.upstream)
    requires !Accepted(r.pubs[a.p], r.upstream, r'.pubs[a.p])
    ensures SafePublisher(up0, r'.upstream, r'.pubs[a.p])
  {
    if a.Push? {
      ProposalIsLater(r.pubs[a.p]);
    }
  }

  /** Other publishers are not affected by a longer directory. */
  lemma StillSafe(up0: seq<string>, up: seq<string>, v: string, q: Publisher)
    requires SafePublisher(up0, up, q)
    ensures SafePublisher(up0, up + [v], q)
  {
  }

  lemma StepSafe(r0: Race, r: Race, a: Action, r': Race)
    requires Safe(r0, r) && Step(r, a, r')
    ensures Safe(r0, r')
  {
    StepShape(r, a, r');
    var q, q' := r.pubs[a.p], r'.pubs[a.p];
    assert SafePublisher(r0.upstream, r.upstream, q);
    if Accepted(q, r.upstream, q') {
      var v := q'.phase.version;
      AcceptedIsSafe(r0.upstream, r.upstream, q, q');
      forall p | p in r'.pubs ensures SafePublisher(r0.upstream, r'.upstream, r'.pubs[p]) {
        if p != a.p {
          StillSafe(r0.upstream, r.upstream, v, r.pubs[p]);
        }
      }
      forall p | p in r.pubs && p != a.p && r.pubs[p].phase.Published? ensures r.pubs[p].phase.version != v {
        assert Earned(r0.upstream, r.upstream, r.pubs[p]);
      }
    } else {
      UnacceptedIsSafe(r0.upstream, r, a, r');
    }
  }

  /**
    Under any interleaving of refreshes, pushes, failures and retries, no
    version is published twice, every published version is later than all
    same-prefix specs its publisher saw, and nobody tries more than 21 times.
   */
  lemma {:induction false} EveryRaceIsSafe(r0: Race, acts: seq<Action>, r: Race)
    requires Run(r0, acts, r) && forall s :: s in r0.upstream ==> Canonical(s)
    ensures Safe(r0, r)
    decreases |acts|
  {
    if acts != [] {
      var m :| RunStep(r0, acts, m, r);
      EveryRaceIsSafe(r0, acts[..|acts| - 1], m);
      StepSafe(r0, m, acts[|acts| - 1], r);
    }
  }

  /** A publisher whose version was taken by another one proposes a later one after its next refresh. */
  lemma RefusedMovesOn(taken: Info, incr: string, upstream: seq<string>, latest: Option<string>)
    requires ValidInfo(taken) && VersionString(taken) in upstream
    requires forall s :: s in upstream ==> Canonical(s)
    requires LatestOf(WithPrefix(upstream, BuildPrefix(taken, incr)), latest)
    ensures latest.Some? && Below(KeyOf(taken), KeyOf(Propose(taken, latest, false)))
  {
    OwnPrefix(taken, incr);
    VersionRoundTrip(taken);
    var specs := WithPrefix(upstream, BuildPrefix(taken, incr));
    assert VersionString(taken) in specs;
    ProposalIsLaterExactlyWhen(taken, specs, latest.value, false);
  }

  // ------------------------------------------------------------- consecutive numbering

  function Rc(base: Info, n: nat): Info {
    base.(revision := n)
  }

  /** The part of a key above the revision. */
  function Release(k: Key): Key {
    k.(revision := 0)
  }

  /** A spec is one of the first `n` candidates of `base`, or belongs to an earlier release. */
  ghost predicate InSeries(base: Info, n: nat, s: string)
    requires ValidInfo(base)
  {
    || (exists k :: 1 <= k <= n && s == VersionString(Rc(base, k)))
    || (Named(s) && Below(Release(KeyOfName(s)), Release(KeyOf(base))))
  }

  /** Exactly the candidates 1 to `n` of `base` exist, and nobody is ahead of the next one. */
  ghost predicate Consecutive(base: Info, n: nat, r: Race)
    requires ValidInfo(base)
  {
    && (forall k :: 1 <= k <= n ==> VersionString(Rc(base, k)) in r.upstream)
    && (forall s :: s in r.upstream ==> InSeries(base, n, s))
    && forall p :: p in r.pubs ==> OnSeries(base, n, r.pubs[p])
  }

  ghost predicate OnSeries(base: Info, n: nat, q: Publisher)
    requires ValidInfo(base)
  {
    && q.info == Rc(base, q.info.revision) && 1 <= q.info.revision <= n + 1
    && (q.phase.Refreshed? && q.latest.Some? ==> InSeries(base, n, q.latest.value))
  }

  /** Whatever a publisher picks is an existing candidate or exactly the next one. */
  lemma ProposalOnSeries(base: Info, n: nat, q: Publisher)
    requires ValidInfo(base) && OnSeries(base, n, q) && WellFormed(q) && q.phase.Refreshed?
    ensures var info := Propose(q.info, q.latest, false);
            info == Rc(base, info.revision) && 1 <= info.revision <= n + 1
    ensures var info := Rebase(q.info, q.latest);
            info == Rc(base, info.revision) && 1 <= info.revision <= n + 1
  {
    VersionRoundTrip(q.info);
    if q.latest.Some? {
      var l := q.latest.value;
      if k :| 1 <= k <= n && l == VersionString(Rc(base, k)) {
        VersionRoundTrip(Rc(base, k));
      } else {
        assert Below(Release(KeyOfName(l)), Release(KeyOf(base)));
        assert Below(KeyOfName(l), KeyOf(q.info));
      }
    }
  }

  lemma SeriesGrows(base: Info, n: nat, s: string)
    requires ValidInfo(base) && InSeries(base, n, s)
    ensures InSeries(base, n + 1, s)
  {
  }

  lemma QuietOnSeries(base: Info, n: nat, r: Race, a: Action, r': Race)
    requires ValidInfo(base) && Consecutive(base, n, r)
    requires Step(r, a, r') && !Accepted(r.pubs[a.p], r.upstream, r'.pubs[a.p])
    ensures OnSeries(base, n, r'.pubs[a.p])
  {
    var q := r.pubs[a.p];
    assert OnSeries(base, n, q);
    if q.phase.Refreshed? {
      ProposalOnSeries(base, n, q);
    }
    if a.Refresh? && a.latest.Some? {
      assert a.latest.value in r.upstream;
    }
  }

  lemma AcceptedOnSeries(base: Info, n: nat, up: seq<string>, q: Publisher, q': Publisher)
    requires ValidInfo(base) && OnSeries(base, n, q) && Accepted(q, up, q')
    requires forall k :: 1 <= k <= n ==> VersionString(Rc(base, k)) in up
    ensures q'.phase.version == VersionString(Rc(base, n + 1)) && OnSeries(base, n + 1, q')
  {
    ProposalOnSeries(base, n, q);
    var info := Propose(q.info, q.latest, false);
    assert VersionString(info) == VersionString(Rc(base, info.revision));
    assert info.revision == n + 1;
  }

  lemma PublisherGrows(base: Info, n: nat, q: Publisher)
    requires ValidInfo(base) && OnSeries(base, n, q)
    ensures OnSeries(base, n + 1, q)
  {
    if q.phase.Refreshed? && q.latest.Some? {
      SeriesGrows(base, n, q.latest.value);
    }
  }

  lemma StepConsecutive(base: Info, n: nat, r: Race, a: Action, r': Race) returns (n': nat)
    requires ValidInfo(base) && Consecutive(base, n, r)
    requires Step(r, a, r')
    ensures Consecutive(base, n', r')
    ensures if r'.upstream == r.upstream then n' == n
            else n' == n + 1 && r'.upstream == r.upstream + [VersionString(Rc(base, n + 1))]
  {
    StepShape(r, a, r');
    var q, q' := r.pubs[a.p], r'.pubs[a.p];
    assert OnSeries(base, n, q);
    if Accepted(q, r.upstream, q') {
      n' := n + 1;
      AcceptedOnSeries(base, n, r.upstream, q, q');
      UpstreamGrows(base, n, r.upstream);
      forall p | p in r'.pubs ensures OnSeries(base, n + 1, r'.pubs[p]) {
        if p != a.p {
          PublisherGrows(base, n, r.pubs[p]);
        }
      }
    } else {
      n' := n;
      QuietOnSeries(base, n, r, a, r');
    }
  }

  lemma UpstreamGrows(base: Info, n: nat, up: seq<string>)
    requires ValidInfo(base)
    requires forall k :: 1 <= k <= n ==> VersionString(Rc(base, k)) in up
    requires forall s :: s in up ==> InSeries(base, n, s)
    ensures var up' := up + [VersionString(Rc(base, n + 1))];
      && (forall k :: 1 <= k <= n + 1 ==> VersionString(Rc(base, k)) in up')
      && (forall s :: s in up' ==> InSeries(base, n + 1, s))
  {
    var up' := up + [VersionString(Rc(base, n + 1))];
    forall s | s in up' ensures InSeries(base, n + 1, s) {
      if s in up {
        SeriesGrows(base, n, s);
      }
    }
  }

  /**
    When all publishers work on the same release, no later release exists, and
    the candidates of this one are numbered 1 to `n`, every race keeps the
    numbering without gaps: each publication is exactly the next candidate.
   */
  lemma {:induction false} CandidatesAreConsecutive(base: Info, n: nat, r0: Race, acts: seq<Action>, r: Race)
    returns (n': nat)
    requires ValidInfo(base) && Run(r0, acts, r) && Consecutive(base, n, r0)
    ensures n <= n' && Consecutive(base, n', r)
    ensures |r.upstream| - |r0.upstream| == n' - n
    decreases |acts|
  {
    if acts == [] {
      n' := n;
    } else {
      var m :| RunStep(r0, acts, m, r);
      var k := CandidatesAreConsecutive(base, n, r0, acts[..|acts| - 1], m);
      n' := StepConsecutive(base, k, m, acts[|acts| - 1], r);
    }
  }
}
