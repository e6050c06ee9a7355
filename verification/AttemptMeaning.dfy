/**
  When a transaction succeeds, what it leaves when it fails, and in which
  order transactions are attempted.
 */
module AttemptMeaning {
  import opened Basics
  import opened PatchModel
  import opened Transactions
  import opened LookupMeaning

  // ------------------------------------------------------------- what the filters keep

  function IsNew(known: set<ChangeId>): ChangeId -> bool {
    c => c !in known
  }

  function Touches(w: World, r: Repo): ChangeId -> bool {
    c => w.repos(c).Some? && r in w.repos(c).value
  }

  lemma {:induction false} FreshMeans(cs: seq<ChangeId>, known: set<ChangeId>)
    ensures Fresh(cs, known) == Filter(cs, IsNew(known))
  {
    if cs != [] {
      FreshMeans(cs[1..], known);
    }
  }

  lemma {:induction false} TouchingMeans(w: World, cs: seq<ChangeId>, r: Repo)
    ensures Touching(w, cs, r) == Filter(cs, Touches(w, r))
  {
    if cs != [] {
      TouchingMeans(w, cs[1..], r);
    }
  }

  // ------------------------------------------------------------- a sequence of cherry-picks

  /** The histories once the first `i` of `cs` have been picked into the repos they touch. */
  function HistoryAt(w: World, h: Histories, cs: seq<ChangeId>, i: nat): Histories
    requires i <= |cs|
  {
    map r | r in h :: h[r] + Filter(cs[..i], Touches(w, r))
  }

  /** The `i`th pick meets the histories the earlier ones left. */
  function PickAt(w: World, h: Histories, cs: seq<ChangeId>, i: nat): Verdict
    requires i < |cs|
  {
    w.attempt(cs[i], HistoryAt(w, h, cs, i))
  }

  ghost predicate AllPicked(w: World, h: Histories, cs: seq<ChangeId>) {
    forall i: nat :: i < |cs| ==> PickAt(w, h, cs, i).Applied?
  }

  /** The first pick that fails. */
  ghost predicate FirstFailed(w: World, h: Histories, cs: seq<ChangeId>, i: nat) {
    && i < |cs| && PickAt(w, h, cs, i).Failed?
    && forall j: nat :: j < i ==> PickAt(w, h, cs, j).Applied?
  }

  lemma HistoryShift(w: World, h: Histories, cs: seq<ChangeId>, i: nat, h': Histories)
    requires i < |cs| && h' == HistoryAt(w, h, cs, 1)
    ensures HistoryAt(w, h', cs[1..], i) == HistoryAt(w, h, cs, i + 1)
  {
    forall r | r in h ensures h'[r] + Filter(cs[1..][..i], Touches(w, r)) == h[r] + Filter(cs[..i + 1], Touches(w, r)) {
      FilterShift(cs, i, Touches(w, r));
      Associates(h[r], Filter(cs[..1], Touches(w, r)), Filter(cs[1..][..i], Touches(w, r)));
    }
  }

  lemma FilterShift(cs: seq<ChangeId>, i: nat, good: ChangeId -> bool)
    requires i < |cs|
    ensures Filter(cs[..i + 1], good) == Filter(cs[..1], good) + Filter(cs[1..][..i], good)
  {
    var rest := cs[1..][..i];
    assert cs[..1] == [cs[0]] + [] && cs[..i + 1] == [cs[0]] + rest;
    FilterHead(cs[0], [], good);
    FilterHead(cs[0], rest, good);
  }

  lemma PickShift(w: World, h: Histories, cs: seq<ChangeId>, h': Histories)
    requires cs != [] && h' == HistoryAt(w, h, cs, 1)
    ensures forall i: nat :: i < |cs| - 1 ==> PickAt(w, h', cs[1..], i) == PickAt(w, h, cs, i + 1)
  {
    forall i: nat | i < |cs| - 1 ensures PickAt(w, h', cs[1..], i) == PickAt(w, h, cs, i + 1) {
      HistoryShift(w, h, cs, i, h');
    }
  }

  lemma FirstPick(w: World, h: Histories, cs: seq<ChangeId>)
    requires cs != [] && w.repos(cs[0]).Some?
    ensures HistoryAt(w, h, cs, 0) == h && PickAt(w, h, cs, 0) == w.attempt(cs[0], h)
    ensures var (h', e) := ApplyOne(w, h, cs[0]);
            if PickAt(w, h, cs, 0).Applied? then e.None? && h' == HistoryAt(w, h, cs, 1)
            else e == Some(PatchError(cs[0], PickAt(w, h, cs, 0).inflight, Conflict))
  {
    forall r | r in h ensures h[r] + Filter(cs[..0], Touches(w, r)) == h[r] {
      assert cs[..0] == [] && h[r] + [] == h[r];
    }
    forall r | r in h ensures Filter(cs[..1], Touches(w, r)) == if Touches(w, r)(cs[0]) then [cs[0]] else [] {
      assert cs[..1] == [cs[0]] + [];
      FilterHead(cs[0], [], Touches(w, r));
    }
    forall r | r in h && !Touches(w, r)(cs[0]) ensures h[r] + Filter(cs[..1], Touches(w, r)) == h[r] {
      assert h[r] + [] == h[r];
    }
  }

  /** The error of a failed pick. */
  function PickError(w: World, h: Histories, cs: seq<ChangeId>, i: nat): PatchError
    requires i < |cs| && PickAt(w, h, cs, i).Failed?
  {
    PatchError(cs[i], PickAt(w, h, cs, i).inflight, Conflict)
  }

  /** What the record of changes known to fail becomes: it gains the failed one unless that failed in flight only. */
  function RecordFailure(failedTot: map<ChangeId, PatchError>, e: PatchError): map<ChangeId, PatchError> {
    if e.inflight then failedTot else failedTot[e.patch := e]
  }

  ghost predicate Located(w: World, cs: seq<ChangeId>) {
    forall c :: c in cs ==> w.repos(c).Some?
  }

  function NewOf(s: RunState, cs: seq<ChangeId>): seq<ChangeId> {
    Filter(cs, IsNew(s.committed))
  }

  /** How a sequence of picks ends: with none failing, or at the first that fails. */
  ghost predicate EndsAs(w: World, s: RunState, picks: seq<ChangeId>, t: RunState, e: Option<PatchError>) {
    && (e.None? <==> AllPicked(w, s.repos, picks))
    && forall i: nat :: FirstFailed(w, s.repos, picks, i) ==>
         e == Some(PickError(w, s.repos, picks, i)) && t.failedTot == RecordFailure(s.failedTot, e.value)
  }

  lemma AllPickedShift(w: World, h: Histories, cs: seq<ChangeId>, h': Histories)
    requires cs != [] && h' == HistoryAt(w, h, cs, 1) && PickAt(w, h, cs, 0).Applied?
    ensures AllPicked(w, h, cs) <==> AllPicked(w, h', cs[1..])
    ensures forall i: nat :: FirstFailed(w, h, cs, i) ==> i > 0 && FirstFailed(w, h', cs[1..], i - 1)
  {
    PickShift(w, h, cs, h');
    if AllPicked(w, h', cs[1..]) {
      forall i: nat | i < |cs| ensures PickAt(w, h, cs, i).Applied? {
        if i > 0 {
          assert PickAt(w, h', cs[1..], i - 1).Applied?;
        }
      }
    }
    if AllPicked(w, h, cs) {
      forall i: nat | i < |cs| - 1 ensures PickAt(w, h', cs[1..], i).Applied? {
        assert PickAt(w, h, cs, i + 1).Applied?;
      }
    }
    forall i: nat | FirstFailed(w, h, cs, i) ensures i > 0 && FirstFailed(w, h', cs[1..], i - 1) {
      forall j: nat | j < i - 1 ensures PickAt(w, h', cs[1..], j).Applied? {
        assert PickAt(w, h, cs, j + 1).Applied?;
      }
    }
  }

  lemma EndsLater(w: World, s: RunState, picks: seq<ChangeId>, s': RunState, t: RunState, e: Option<PatchError>)
    requires picks != [] && PickAt(w, s.repos, picks, 0).Applied?
    requires s'.repos == HistoryAt(w, s.repos, picks, 1) && s'.failedTot == s.failedTot
    requires EndsAs(w, s', picks[1..], t, e)
    ensures EndsAs(w, s, picks, t, e)
  {
    AllPickedShift(w, s.repos, picks, s'.repos);
    PickShift(w, s.repos, picks, s'.repos);
    forall i: nat | FirstFailed(w, s.repos, picks, i)
      ensures e == Some(PickError(w, s.repos, picks, i)) && t.failedTot == RecordFailure(s.failedTot, e.value)
    {
      assert FirstFailed(w, s'.repos, picks[1..], i - 1);
      assert PickAt(w, s'.repos, picks[1..], i - 1) == PickAt(w, s.repos, picks, i);
      assert PickError(w, s'.repos, picks[1..], i - 1) == PickError(w, s.repos, picks, i);
    }
  }

  lemma EndsAtOnce(w: World, s: RunState, picks: seq<ChangeId>, t: RunState, e: Option<PatchError>)
    requires picks != [] && PickAt(w, s.repos, picks, 0).Failed?
    requires e == Some(PickError(w, s.repos, picks, 0)) && t.failedTot == RecordFailure(s.failedTot, e.value)
    ensures EndsAs(w, s, picks, t, e)
  {
    var first := PickAt(w, s.repos, picks, 0);
    forall i: nat | i > 0 ensures !FirstFailed(w, s.repos, picks, i) {
      assert !first.Applied?;
    }
  }

  lemma {:induction false} SequenceEnds(w: World, s: RunState, cs: seq<ChangeId>)
    requires Located(w, cs)
    ensures var (t, e) := ApplySeq(w, s, cs);
            EndsAs(w, s, NewOf(s, cs), t, e)
    decreases |cs|
  {
    if cs != [] {
      var c, rest := cs[0], cs[1..];
      var picks := NewOf(s, cs);
      assert Located(w, rest) by {
        assert forall x :: x in rest ==> x in cs;
      }
      if c in s.committed {
        SequenceEnds(w, s, rest);
        assert picks == [] + NewOf(s, rest) == NewOf(s, rest);
      } else {
        assert picks == [c] + NewOf(s, rest) && picks[1..] == NewOf(s, rest) && c in cs;
        FirstPick(w, s.repos, picks);
        var s' := s.(repos := ApplyOne(w, s.repos, c).0);
        if PickAt(w, s.repos, picks, 0).Applied? {
          SequenceEnds(w, s', rest);
          EndsLater(w, s, picks, s', ApplySeq(w, s', rest).0, ApplySeq(w, s', rest).1);
        } else {
          EndsAtOnce(w, s, picks, ApplySeq(w, s, cs).0, ApplySeq(w, s, cs).1);
        }
      }
    }
  }

  // ------------------------------------------------------------- a transaction

  ghost predicate KnownBad(s: RunState, cs: seq<ChangeId>) {
    exists c :: c in cs && c in s.failedTot
  }

  /**
    A transaction succeeds if and only if every member is in some checkout,
    none is known to fail, and each new one can be picked after those before it.
   */
  lemma SucceedsExactlyWhen(w: World, s: RunState, p: Planned)
    ensures Attempt(w, s, p).1.None? <==>
              Located(w, p.plan) && !KnownBad(s, p.plan) && AllPicked(w, s.repos, NewOf(s, p.plan))
  {
    assert FirstMissing(w, p.plan).None? <==> Located(w, p.plan);
    assert FirstKnownBad(s.failedTot, p.plan).None? <==> !KnownBad(s, p.plan);
    if Located(w, p.plan) {
      SequenceEnds(w, s, p.plan);
      assert Attempt(w, s, p).1.None? <==> !KnownBad(s, p.plan) && ApplySeq(w, s, p.plan).1.None?;
    } else {
      assert FirstMissing(w, p.plan).Some? && Attempt(w, s, p).1.Some?;
    }
  }

  /** Blame on the change the transaction is for, keeping the error of another member inside. */
  function Blame(c: ChangeId, e: PatchError): PatchError {
    if e.patch == c then e else PatchError(c, e.inflight, DependsOn(e))
  }

  /** The first pick that fails is to blame, and is remembered unless it failed in flight only. */
  lemma FailsAt(w: World, s: RunState, p: Planned, i: nat)
    requires Located(w, p.plan) && !KnownBad(s, p.plan) && FirstFailed(w, s.repos, NewOf(s, p.plan), i)
    ensures var e := PickError(w, s.repos, NewOf(s, p.plan), i);
            Attempt(w, s, p) == (s.(failedTot := RecordFailure(s.failedTot, e)), Some(Blame(p.change, e)))
  {
    SequenceEnds(w, s, p.plan);
  }

  /** The first member `c` of `cs` with `bad(c)`. */
  ghost predicate IsFirst(cs: seq<ChangeId>, bad: ChangeId -> bool, i: nat) {
    i < |cs| && bad(cs[i]) && forall j :: 0 <= j < i ==> !bad(cs[j])
  }

  function IsMissing(w: World): ChangeId -> bool {
    c => w.repos(c).None?
  }

  function IsKnownBad(s: RunState): ChangeId -> bool {
    c => c in s.failedTot
  }

  lemma {:induction false} FirstMissingMeans(w: World, cs: seq<ChangeId>, i: nat)
    requires IsFirst(cs, IsMissing(w), i)
    ensures FirstMissing(w, cs) == Some(cs[i])
  {
    if i > 0 {
      assert !IsMissing(w)(cs[0]);
      forall j | 0 <= j < i - 1 ensures !IsMissing(w)(cs[1..][j]) {
        assert !IsMissing(w)(cs[j + 1]);
      }
      FirstMissingMeans(w, cs[1..], i - 1);
    }
  }

  lemma {:induction false} FirstKnownBadMeans(s: RunState, cs: seq<ChangeId>, i: nat)
    requires IsFirst(cs, IsKnownBad(s), i)
    ensures FirstKnownBad(s.failedTot, cs) == Some(s.failedTot[cs[i]])
  {
    if i > 0 {
      assert !IsKnownBad(s)(cs[0]);
      forall j | 0 <= j < i - 1 ensures !IsKnownBad(s)(cs[1..][j]) {
        assert !IsKnownBad(s)(cs[j + 1]);
      }
      FirstKnownBadMeans(s, cs[1..], i - 1);
    }
  }

  /** A transaction is refused for its first absent member, whatever change it is for. */
  lemma RefusedForAbsent(w: World, s: RunState, p: Planned, i: nat)
    requires IsFirst(p.plan, IsMissing(w), i)
    ensures Attempt(w, s, p) == (s, Some(PatchError(p.plan[i], false, NotInManifest)))
  {
    FirstMissingMeans(w, p.plan, i);
  }

  /** Else it is refused for its first member known to fail. */
  lemma RefusedForKnownBad(w: World, s: RunState, p: Planned, i: nat)
    requires Located(w, p.plan) && IsFirst(p.plan, IsKnownBad(s), i)
    ensures Attempt(w, s, p) == (s, Some(Blame(p.change, s.failedTot[p.plan[i]])))
  {
    FirstKnownBadMeans(s, p.plan, i);
  }

  // ------------------------------------------------------------- the order of transactions

  /** `states[i]` is where the `i`th transaction starts, and each starts where the one before it ended. */
  ghost predicate IsTrace(w: World, s: RunState, todo: seq<Planned>, states: seq<RunState>) {
    && |states| == |todo| + 1 && states[0] == s
    && forall i :: 0 <= i < |todo| ==> states[i + 1] == Attempt(w, states[i], todo[i]).0
  }

  /** The applied changes are those of the plans that landed; the errors are those of the others. */
  ghost predicate Tallies(w: World, todo: seq<Planned>, states: seq<RunState>, r: Report)
    requires |states| == |todo| + 1
  {
    && r.state == states[|todo|]
    && (forall c :: c in r.applied <==> exists i :: LandedWith(w, todo, states, c, i))
    && (forall e :: e in r.failed <==> exists i :: FailedWith(w, todo, states, e, i))
  }

  ghost predicate LandedWith(w: World, todo: seq<Planned>, states: seq<RunState>, c: ChangeId, i: int)
    requires |states| == |todo| + 1
  {
    0 <= i < |todo| && Attempt(w, states[i], todo[i]).1.None? && c in todo[i].plan
  }

  ghost predicate FailedWith(w: World, todo: seq<Planned>, states: seq<RunState>, e: PatchError, i: int)
    requires |states| == |todo| + 1
  {
    0 <= i < |todo| && Attempt(w, states[i], todo[i]).1 == Some(e)
  }

  /** Transactions are attempted one after another, in the order given. */
  lemma {:induction false} RunIsInOrder(w: World, s: RunState, todo: seq<Planned>) returns (states: seq<RunState>)
    ensures IsTrace(w, s, todo, states) && Tallies(w, todo, states, RunAll(w, s, todo))
    decreases |todo|
  {
    if todo == [] {
      states := [s];
    } else {
      var init, p := todo[..|todo| - 1], todo[|todo| - 1];
      var before := RunIsInOrder(w, s, init);
      var r := RunAll(w, s, init);
      states := before + [Attempt(w, r.state, p).0];
      assert todo == init + [p];
      OneMoreTally(w, init, before, r, p, states);
    }
  }

  lemma OneMoreTally(w: World, init: seq<Planned>, before: seq<RunState>, r: Report, p: Planned, states: seq<RunState>)
    requires |before| == |init| + 1 && Tallies(w, init, before, r)
    requires states == before + [Attempt(w, r.state, p).0]
    ensures Tallies(w, init + [p], states, OneAttempt(w, r, p))
  {
    var todo, r' := init + [p], OneAttempt(w, r, p);
    forall c ensures c in r'.applied <==> exists i :: LandedWith(w, todo, states, c, i) {
      LandedSnoc(w, init, before, r.state, p, states, c);
    }
    forall e ensures e in r'.failed <==> exists i :: FailedWith(w, todo, states, e, i) {
      FailedSnoc(w, init, before, r.state, p, states, e);
    }
  }

  lemma LandedSnoc(w: World, init: seq<Planned>, before: seq<RunState>, s: RunState, p: Planned, states: seq<RunState>, c: ChangeId)
    requires |before| == |init| + 1 && before[|init|] == s && states == before + [Attempt(w, s, p).0]
    ensures (exists i :: LandedWith(w, init + [p], states, c, i)) <==>
              (exists i :: LandedWith(w, init, before, c, i)) || (Attempt(w, s, p).1.None? && c in p.plan)
  {
    var todo := init + [p];
    forall i | 0 <= i < |init| ensures LandedWith(w, todo, states, c, i) <==> LandedWith(w, init, before, c, i) {
    }
    assert LandedWith(w, todo, states, c, |init|) <==> Attempt(w, s, p).1.None? && c in p.plan;
  }

  lemma FailedSnoc(w: World, init: seq<Planned>, before: seq<RunState>, s: RunState, p: Planned, states: seq<RunState>, e: PatchError)
    requires |before| == |init| + 1 && before[|init|] == s && states == before + [Attempt(w, s, p).0]
    ensures (exists i :: FailedWith(w, init + [p], states, e, i)) <==>
              (exists i :: FailedWith(w, init, before, e, i)) || Attempt(w, s, p).1 == Some(e)
  {
    var todo := init + [p];
    forall i | 0 <= i < |init| ensures FailedWith(w, todo, states, e, i) <==> FailedWith(w, init, before, e, i) {
    }
    assert FailedWith(w, todo, states, e, |init|) <==> Attempt(w, s, p).1 == Some(e);
  }
}
