/**
  One publisher of LKGM candidates as it executes among others, and the proof
  that its attempts are steps of the race.
 */
module LkgmManagerClass {
  import opened Basics
  import opened LkgmVersions
  import opened LkgmPublish

  /**
    What one attempt meets: the steps other publishers attempt before it looks
    and before it pushes, whether the checkout was built before, and where it
    fails for reasons of its own.
   */
  datatype Attempt = Attempt(
    before: seq<Action>,
    meanwhile: seq<Action>,
    built: bool,
    refreshFails: bool,
    branchFails: bool,
    pushFails: bool)

  datatype CandidateError = NoCheckout | Malformed(name: string) | Exhausted

  datatype Tried = Ready | Bad(name: string) | Built | Failed | Done(version: string)

  lemma RunSnoc(r0: Race, acts: seq<Action>, r: Race, a: Action, r': Race)
    requires Run(r0, acts, r) && Next(r, a) == Some(r')
    ensures Run(r0, acts + [a], r')
  {
    var all := acts + [a];
    assert all[..|all| - 1] == acts;
    assert RunStep(r0, all, r, r');
  }

  /** What a publisher that fails to publish carries into its next attempt. */
  ghost predicate Retried(q: Publisher, q': Publisher) {
    q'.attempts == q.attempts + 1 && q'.phase == if q.attempts < NUM_RETRIES then Stale else GaveUp
  }

  class LkgmManager {
    var info: LkgmCandidateInfo
    var latest: Option<string>
    var currentVersion: Option<string>
    const incr: string
    const dryRun: bool
    /** The publisher this is, and the state of all of them and of the spec directory. */
    const me: Pid
    var race: Race
    /** How the race started, and the steps since. */
    ghost var start: Race
    ghost var acts: seq<Action>

    constructor (info: LkgmCandidateInfo, incr: string, dryRun: bool, me: Pid, upstream: seq<string>,
                 others: map<Pid, Publisher>)
      requires ValidInfo(info.Value())
      requires Start(Race(upstream, others))
      ensures Valid() && Self().phase.Stale? && Self().attempts == 0 && start == race
      ensures this.info == info && this.incr == incr && this.dryRun == dryRun && this.me == me
      ensures race.upstream == upstream && race.pubs == others[me := Self()] && currentVersion == None && acts == []
    {
      var q := Publisher(Info(info.build, info.branch, info.patch, info.revision), incr, dryRun, 0, [], None, Stale);
      this.info, this.incr, this.dryRun, this.me := info, incr, dryRun, me;
      latest, currentVersion := None, None;
      race, start, acts := Race(upstream, others[me := q]), Race(upstream, others[me := q]), [];
    }

    /** The race is where the steps so far lead, and this publisher takes part in it. */
    ghost predicate Racing()
      reads this
    {
      && Run(start, acts, race) && me in race.pubs && WellFormed(race.pubs[me])
      && race.pubs[me].incr == incr && race.pubs[me].dryRun == dryRun
    }

    /** Between attempts the candidate is what the race knows it to be. */
    ghost predicate Valid()
      reads this, info
    {
      Racing() && ValidInfo(info.Value()) && race.pubs[me].info == info.Value()
    }

    /** This publisher as the race sees it. */
    ghost function Self(): Publisher
      requires me in race.pubs
      reads this
    {
      race.pubs[me]
    }

    /** A step of this publisher or of another one. */
    method Step(a: Action)
      requires Racing() && Next(race, a).Some?
      modifies this`race, this`acts
      ensures Racing() && Some(race) == Next(old(race), a) && old(acts) < acts
      ensures a.p != me ==> Self() == old(Self()) && old(race.upstream) <= race.upstream
    {
      StepShape(race, a, Next(race, a).value);
      StepWellFormed(race, a, Next(race, a).value, me);
      RunSnoc(start, acts, race, a, Next(race, a).value);
      race, acts := Next(race, a).value, acts + [a];
    }

    /** Steps of the other publishers; impossible ones are skipped. */
    method Others(turn: seq<Action>)
      requires Racing()
      modifies this`race, this`acts
      ensures Racing() && Self() == old(Self()) && old(race.upstream) <= race.upstream && old(acts) <= acts
    {
      for i := 0 to |turn|
        invariant Racing() && Self() == old(Self()) && old(race.upstream) <= race.upstream && old(acts) <= acts
      {
        if turn[i].p != me && Next(race, turn[i]).Some? {
          Step(turn[i]);
        }
      }
    }

    /** Picks the latest spec of the own prefix out of the directory. */
    method InitializeManifestVariables() returns (bad: Option<string>)
      modifies this`latest
      ensures var specs := WithPrefix(race.upstream, BuildPrefix(info.Value(), incr));
        && (bad.None? <==> AllNamed(specs))
        && (bad.None? ==> LatestOf(specs, latest))
        && (bad.Some? ==> bad.value in specs && !Named(bad.value))
    {
      var r := LatestSpecFromList(WithPrefix(race.upstream, BuildPrefix(info.Value(), incr)));
      if r.Err? {
        return Some(r.error);
      }
      latest := r.value;
      bad := None;
    }

    /** Starts over from the latest spec if that is no older than the own version. */
    method RebaseInfo()
      requires ValidInfo(info.Value()) && (latest.Some? ==> Named(latest.value))
      modifies this`info
      ensures info.Value() == Rebase(old(info.Value()), latest)
      ensures info == old(info) || fresh(info)
    {
      if latest.Some? && !Below(KeyOfName(latest.value), KeyOf(info.Value())) {
        info := new LkgmCandidateInfo(Search(latest.value).value);
      }
    }

    /** The next version; the candidate is incremented in place only if its name is the latest spec. */
    method GetNextVersion() returns (version: string)
      requires ValidInfo(info.Value())
      modifies info`revision
      ensures info.Value() == NextInfo(old(info.Value()), latest, dryRun)
      ensures version == VersionString(info.Value())
    {
      version := VersionString(info.Value());
      if latest == Some(version) {
        if !dryRun {
          version := info.IncrementVersion();
        }
      }
    }

    /**
      One attempt.  Its steps are steps of the race, and whatever its outcome,
      the candidate keeps what the attempt made of it.
     */
    method TryOnce(force: bool, a: Attempt) returns (t: Tried)
      requires Valid() && Self().phase.Stale?
      modifies this`info, this`latest, this`race, this`acts, info
      ensures Valid() && (info == old(info) || fresh(info)) && old(acts) < acts
      ensures var was, q := old(Self()), Self();
        match t
        case Done(v) =>
          && !a.refreshFails && !a.branchFails && !a.pushFails && (force || !a.built)
          && q.phase == (if dryRun then Rehearsed(v) else Published(v))
          && Looked(was, q, old(race.upstream), race.upstream) && q.info == Propose(was.info, q.latest, dryRun)
          && v == VersionString(q.info) && q.attempts == was.attempts
        case Built => !a.refreshFails && !force && a.built && q.phase == Skipped && q.info == was.info && q.attempts == was.attempts
        case Bad(name) => q.phase == Broken && name in race.upstream && !Named(name) && q.attempts == was.attempts
        case Failed =>
          && Retried(was, q)
          && if a.refreshFails then q.info == was.info
             else
               && Looked(was, q, old(race.upstream), race.upstream) && (force || !a.built)
               && if a.branchFails then q.info == Rebase(was.info, q.latest)
                  else q.info == Propose(was.info, q.latest, dryRun)
                       && (a.pushFails || (!dryRun && VersionString(q.info) in race.upstream))
        case Ready => false
    {
      t := Look(force, a);
      if t.Ready? {
        t := Publish(a);
      }
    }

    /** The first half: looks at the directory and whether there is something to do. */
    method Look(force: bool, a: Attempt) returns (t: Tried)
      requires Valid() && Self().phase.Stale?
      modifies this`latest, this`race, this`acts
      ensures Valid() && old(acts) < acts && old(race.upstream) <= race.upstream
      ensures Self().info == old(Self().info)
      ensures var was, q := old(Self()), Self();
        match t
        case Ready =>
          && !a.refreshFails && (force || !a.built) && q.attempts == was.attempts
          && q.phase == Refreshed && q.latest == latest && Looked(was, q, old(race.upstream), race.upstream)
        case Built => !a.refreshFails && !force && a.built && q.phase == Skipped && q.attempts == was.attempts
        case Bad(name) => q.phase == Broken && name in race.upstream && !Named(name) && q.attempts == was.attempts
        case Failed => a.refreshFails && Retried(was, q)
        case Done(_) => false
    {
      Others(a.before);
      if a.refreshFails {
        Step(Trip(me, false));
        return Failed;
      }
      var bad := InitializeManifestVariables();
      if bad.Some? {
        Step(Break(me));
        return Bad(bad.value);
      }
      Step(Refresh(me, latest));
      if !force && a.built {
        Step(Skip(me));
        return Built;
      }
      t := Ready;
    }

    /** The second half: picks a version and pushes it. */
    method Publish(a: Attempt) returns (t: Tried)
      requires Valid() && Self().phase.Refreshed? && Self().latest == latest
      modifies this`info, this`race, this`acts, info
      ensures Valid() && (info == old(info) || fresh(info)) && old(acts) < acts && old(race.upstream) <= race.upstream
      ensures Self().seen == old(Self().seen) && Self().latest == old(Self().latest)
      ensures var was, q := old(Self()), Self();
        match t
        case Done(v) =>
          && !a.branchFails && !a.pushFails && q.phase == (if dryRun then Rehearsed(v) else Published(v))
          && q.info == Propose(was.info, q.latest, dryRun) && v == VersionString(q.info) && q.attempts == was.attempts
        case Failed =>
          && Retried(was, q)
          && if a.branchFails then q.info == Rebase(was.info, q.latest)
             else q.info == Propose(was.info, q.latest, dryRun)
                  && (a.pushFails || (!dryRun && VersionString(q.info) in race.upstream))
        case _ => false
    {
      RebaseInfo();
      if a.branchFails {
        Step(Trip(me, true));
        return Failed;
      }
      Others(a.meanwhile);
      var version := GetNextVersion();
      var accepted := !a.pushFails && (dryRun || version !in race.upstream);
      Step(Push(me, !a.pushFails));
      t := if accepted then Done(version) else Failed;
    }

    /** Tries up to 21 times to pick and publish a version; the candidate carries over between attempts. */
    method CreateNewCandidate(force: bool, env: nat -> Attempt) returns (r: Result<Option<string>, CandidateError>)
      requires Valid() && Self().phase.Stale? && Self().attempts == 0
      modifies this, info
      ensures Valid() && start == old(start) && old(acts) <= acts
      ensures var q := Self(); var k := q.attempts;
        match r
        case Ok(Some(v)) =>
          && k <= 20 && !env(k).refreshFails && !env(k).branchFails && !env(k).pushFails && (force || !env(k).built)
          && q.phase == (if dryRun then Rehearsed(v) else Published(v)) && v == VersionString(q.info)
          && currentVersion == Some(v)
        case Ok(None) => k <= 20 && !env(k).refreshFails && !force && env(k).built && q.phase == Skipped
        case Err(NoCheckout) => race == old(race)
        case Err(Malformed(name)) => q.phase == Broken && name in race.upstream && !Named(name)
        case Err(Exhausted) => q.phase == GaveUp && k == 21
      ensures r.Ok? && r.value.Some? && !dryRun && (forall s :: s in Self().seen ==> Canonical(s)) ==>
        forall s :: s in Self().seen ==> Named(s) && Below(KeyOfName(s), KeyOf(info.Value()))
      ensures r == Err(NoCheckout) <==> env(0).refreshFails
      ensures r.Err? || r.value.None? ==> currentVersion == old(currentVersion)
      ensures (forall s :: s in start.upstream ==> Canonical(s)) ==> Safe(start, race)
    {
      if env(0).refreshFails {
        RaceIsSafe();
        return Err(NoCheckout);
      }
      for attempt := 0 to NUM_RETRIES + 1
        invariant Valid() && start == old(start) && old(acts) <= acts && currentVersion == old(currentVersion)
        invariant info == old(info) || fresh(info)
        invariant Self().attempts == attempt && Self().phase == if attempt <= NUM_RETRIES then Stale else GaveUp
      {
        ghost var was := Self();
        var t := TryOnce(force, env(attempt));
        if !t.Failed? {
          RaceIsSafe();
        }
        match t {
          case Bad(name) =>
            return Err(Malformed(name));
          case Built =>
            return Ok(None);
          case Failed =>
          case Done(version) =>
            currentVersion := Some(version);
            PickedIsLater(was.info, Self());
            return Ok(Some(version));
        }
      }
      RaceIsSafe();
      r := Err(Exhausted);
    }

    lemma RaceIsSafe()
      requires Racing()
      ensures (forall s :: s in start.upstream ==> Canonical(s)) ==> Safe(start, race)
    {
      if forall s :: s in start.upstream ==> Canonical(s) {
        EveryRaceIsSafe(start, acts, race);
      }
    }
  }

  /** Publisher `q` has looked at the directory at some moment between `up` and `up'`, when it was `was`. */
  ghost predicate Looked(was: Publisher, q: Publisher, up: seq<string>, up': seq<string>) {
    && LatestOf(q.seen, q.latest)
    && exists now :: up <= now <= up' && q.seen == Listing(was, now)
  }

  lemma PickedIsLater(was: Info, q: Publisher)
    requires ValidInfo(was) && LatestOf(q.seen, q.latest) && q.info == Propose(was, q.latest, q.dryRun)
    ensures !q.dryRun && (forall s :: s in q.seen ==> Canonical(s)) ==>
              ValidInfo(q.info) && forall s :: s in q.seen ==> Named(s) && Below(KeyOfName(s), KeyOf(q.info))
  {
    if q.latest.Some? {
      ProposalIsLaterExactlyWhen(was, q.seen, q.latest.value, q.dryRun);
    }
  }

  lemma StepWellFormed(r: Race, a: Action, r': Race, p: Pid)
    requires Next(r, a) == Some(r') && p in r.pubs && WellFormed(r.pubs[p])
    ensures p in r'.pubs && WellFormed(r'.pubs[p])
    ensures r'.pubs[p].incr == r.pubs[p].incr && r'.pubs[p].dryRun == r.pubs[p].dryRun
  {
  }
}
