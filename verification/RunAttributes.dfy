/**
  Parallel run attributes: a register shared by many processes, built from a
  queue and a lock.  A reader first takes the value off the queue without the
  lock and puts it back under the lock.

  Each queue operation and each lock operation is one step; a run is any
  interleaving of the steps of any number of processes.
 */
module RunAttributes {
  import opened Basics

  type Pid = int
  type Value = int

  /** Where a process is in `SetParallel`, `GetParallel` or `HasParallel`. */
  datatype Phase =
    | Idle
    | SetWait(v: Value)                  // wants the lock
    | SetDrain(v: Value)                 // has the lock, empties the queue
    | SetPut(v: Value)                   // found the queue empty
    | GetTake                            // unlocked take, possibly waiting
    | GetWait(hand: Option<Value>)       // wants the lock
    | GetDrain(hand: Option<Value>)      // has the lock, accepts newer values
    | GetPut(value: Value)               // found the queue empty, has a value to put back
    | HasWait
    | HasRead
    | Leave                              // about to release the lock

  /** What happened inside the locked sections, in the order of these sections. */
  datatype Event =
    | DidSet(v: Value)
    | DidGet(p: Pid, result: Option<Value>)
    | DidHas(p: Pid, answer: bool)

  datatype State = State(queue: seq<Value>, holder: Option<Pid>, phase: map<Pid, Phase>, log: seq<Event>)

  const Init := State([], None, map[], [])

  function At(s: State, p: Pid): Phase {
    if p in s.phase then s.phase[p] else Idle
  }

  datatype Action =
    | BeginSet(p: Pid, v: Value)
    | BeginGet(p: Pid)
    | BeginHas(p: Pid)
    | Take(p: Pid)
    | GiveUp(p: Pid)
    | Acquire(p: Pid)
    | Drain(p: Pid)
    | SeeEmpty(p: Pid)
    | Put(p: Pid)
    | Read(p: Pid)
    | Release(p: Pid)

  function Go(s: State, p: Pid, ph: Phase): State {
    s.(phase := s.phase[p := ph])
  }

  function LockedPhase(ph: Phase): Option<Phase> {
    match ph
    case SetWait(v) => Some(SetDrain(v))
    case GetWait(hand) => Some(GetDrain(hand))
    case HasWait => Some(HasRead)
    case _ => None
  }

  /** The state after an action, if the action is possible. */
  function Next(s: State, a: Action): Option<State> {
    var ph := At(s, a.p);
    match a
    case BeginSet(p, v) => if ph.Idle? then Some(Go(s, p, SetWait(v))) else None
    case BeginGet(p) => if ph.Idle? then Some(Go(s, p, GetTake)) else None
    case BeginHas(p) => if ph.Idle? then Some(Go(s, p, HasWait)) else None
    case Take(p) =>
      if ph.GetTake? && s.queue != [] then
        Some(Go(s, p, GetWait(Some(s.queue[0]))).(queue := s.queue[1..]))
      else None
    case GiveUp(p) =>
      if ph.GetTake? && s.queue == [] then Some(Go(s, p, GetWait(None))) else None
    case Acquire(p) =>
      if s.holder.None? && LockedPhase(ph).Some? then
        Some(Go(s, p, LockedPhase(ph).value).(holder := Some(p)))
      else None
    case Drain(p) =>
      if s.queue == [] then None
      else if ph.SetDrain? then Some(s.(queue := s.queue[1..]))
      else if ph.GetDrain? then Some(Go(s, p, GetDrain(Some(s.queue[0]))).(queue := s.queue[1..]))
      else None
    case SeeEmpty(p) =>
      if s.queue != [] then None
      else if ph.SetDrain? then Some(Go(s, p, SetPut(ph.v)))
      else if ph.GetDrain? && ph.hand.Some? then Some(Go(s, p, GetPut(ph.hand.value)))
      else if ph.GetDrain? then Some(Go(s, p, Leave).(log := s.log + [DidGet(p, None)]))
      else None
    case Put(p) =>
      if ph.SetPut? then
        Some(Go(s, p, Leave).(queue := s.queue + [ph.v], log := s.log + [DidSet(ph.v)]))
      else if ph.GetPut? then
        Some(Go(s, p, Leave).(queue := s.queue + [ph.value], log := s.log + [DidGet(p, Some(ph.value))]))
      else None
    case Read(p) =>
      if ph.HasRead? then Some(Go(s, p, Leave).(log := s.log + [DidHas(p, s.queue != [])])) else None
    case Release(p) =>
      if ph.Leave? && s.holder == Some(p) then Some(Go(s, p, Idle).(holder := None)) else None
  }

  /** The state a sequence of actions leads to, if all of them are possible. */
  function Exec(acts: seq<Action>): Option<State>
    decreases |acts|
  {
    if acts == [] then Some(Init)
    else
      var s := Exec(acts[..|acts| - 1]);
      if s.None? then None else Next(s.value, acts[|acts| - 1])
  }

  // ------------------------------------------------------------- what every interleaving keeps

  function LastSet(log: seq<Event>): Option<Value> {
    if log == [] then None
    else if log[|log| - 1].DidSet? then Some(log[|log| - 1].v)
    else LastSet(log[..|log| - 1])
  }

  ghost predicate WasSet(log: seq<Event>, v: Value) {
    DidSet(v) in log
  }

  predicate HasLock(ph: Phase) {
    ph.SetDrain? || ph.SetPut? || ph.GetDrain? || ph.GetPut? || ph.HasRead? || ph.Leave?
  }

  predicate Setting(ph: Phase) {
    ph.SetDrain? || ph.SetPut?
  }

  /** The value a getter has in hand. */
  function Hand(ph: Phase): Option<Value> {
    match ph
    case GetWait(h) => h
    case GetDrain(h) => h
    case GetPut(v) => Some(v)
    case _ => None
  }

  /** The shared value is somewhere: queued, in a getter's hand, or about to be replaced by a setter with the lock. */
  ghost predicate Alive(s: State) {
    s.queue != [] || exists p :: Hand(At(s, p)).Some? || Setting(At(s, p))
  }

  ghost predicate Safe(s: State) {
    && |s.queue| <= 1
    && (forall p :: HasLock(At(s, p)) <==> s.holder == Some(p))
    && (forall p :: At(s, p).SetPut? || At(s, p).GetPut? ==> s.queue == [])
    && (forall v :: v in s.queue ==> WasSet(s.log, v))
    && (forall p :: Hand(At(s, p)).Some? ==> WasSet(s.log, Hand(At(s, p)).value))
    && (LastSet(s.log).Some? ==> Alive(s))
    && ((exists v :: WasSet(s.log, v)) ==> LastSet(s.log).Some?)
    && (forall i :: 0 <= i < |s.log| ==> HonestAt(s.log, i))
  }

  /** A getter returned only what was set before; a tester said yes only after a set. */
  ghost predicate HonestAt(log: seq<Event>, i: int)
    requires 0 <= i < |log|
  {
    match log[i]
    case DidGet(_, Some(v)) => WasSet(log[..i], v)
    case DidHas(_, true) => exists v :: WasSet(log[..i], v)
    case _ => true
  }

  ghost predicate Honest(log: seq<Event>) {
    forall i :: 0 <= i < |log| ==> HonestAt(log, i)
  }

  lemma LogSnoc(log: seq<Event>, e: Event)
    requires Honest(log)
    requires e.DidGet? && e.result.Some? ==> WasSet(log, e.result.value)
    requires e.DidHas? && e.answer ==> exists v :: WasSet(log, v)
    ensures Honest(log + [e])
    ensures LastSet(log + [e]) == if e.DidSet? then Some(e.v) else LastSet(log)
    ensures forall v :: WasSet(log + [e], v) <==> WasSet(log, v) || e == DidSet(v)
  {
    var l := log + [e];
    assert l[..|l| - 1] == log;
    forall i | 0 <= i < |l| ensures HonestAt(l, i) {
      if i < |log| {
        assert l[..i] == log[..i];
        assert HonestAt(log, i);
      } else {
        assert l[..i] == log;
      }
    }
  }

  /** Steps that change neither queue nor log and put nobody out of possession. */
  lemma QuietStepSafe(s: State, t: State, p: Pid, ph: Phase)
    requires Safe(s) && t == Go(s, p, ph).(holder := t.holder)
    requires forall q :: HasLock(At(t, q)) <==> t.holder == Some(q)
    requires ph.SetPut? || ph.GetPut? ==> s.queue == []
    requires Hand(ph).Some? ==> WasSet(s.log, Hand(ph).value)
    requires Hand(At(s, p)).Some? || Setting(At(s, p)) ==> Hand(ph).Some? || Setting(ph)
    ensures Safe(t)
  {
    if LastSet(s.log).Some? && s.queue == [] {
      var q :| Hand(At(s, q)).Some? || Setting(At(s, q));
      assert Hand(At(t, q)).Some? || Setting(At(t, q));
    }
  }

  /** Taking a value off the queue: it goes into the taker's hand, or the taker is a setter. */
  lemma RemoveStepSafe(s: State, t: State, p: Pid, ph: Phase)
    requires Safe(s) && s.queue != [] && t == Go(s, p, ph).(queue := s.queue[1..])
    requires HasLock(ph) == HasLock(At(s, p))
    requires !ph.SetPut? && !ph.GetPut?
    requires Setting(ph) || Hand(ph) == Some(s.queue[0])
    ensures Safe(t)
  {
    assert s.queue[0] in s.queue;
    assert Setting(At(t, p)) || Hand(At(t, p)).Some?;
    assert t.queue == [];
  }

  /** Steps inside a locked section that record something. */
  lemma RecordStepSafe(s: State, t: State, p: Pid, e: Event, q: seq<Value>)
    requires Safe(s) && s.holder == Some(p)
    requires t == Go(s, p, Leave).(queue := q, log := s.log + [e])
    requires e.DidSet? ==> q == [e.v]
    requires e.DidGet? && e.result.Some? ==> q == [e.result.value] && WasSet(s.log, e.result.value)
    requires e.DidGet? && e.result.None? ==> q == s.queue == [] && At(s, p) == GetDrain(None)
    requires e.DidHas? ==> q == s.queue && e.answer == (q != []) && At(s, p).HasRead?
    ensures Safe(t)
  {
    if e.DidHas? && e.answer {
      assert WasSet(s.log, s.queue[0]);
    }
    LogSnoc(s.log, e);
    if LastSet(t.log).Some? && t.queue == [] {
      var o :| Hand(At(s, o)).Some? || Setting(At(s, o));
      assert Hand(At(t, o)).Some? || Setting(At(t, o));
    }
  }

  /** Steps outside the locked sections, and those taking or releasing the lock. */
  lemma OuterStepSafe(s: State, a: Action, t: State)
    requires Safe(s) && Next(s, a) == Some(t)
    requires !a.Drain? && !a.SeeEmpty? && !a.Put? && !a.Read?
    ensures Safe(t)
  {
    var p, ph := a.p, At(s, a.p);
    match a
    case BeginSet(_, v) => QuietStepSafe(s, t, p, SetWait(v));
    case BeginGet(_) => QuietStepSafe(s, t, p, GetTake);
    case BeginHas(_) => QuietStepSafe(s, t, p, HasWait);
    case Take(_) => RemoveStepSafe(s, t, p, GetWait(Some(s.queue[0])));
    case GiveUp(_) => QuietStepSafe(s, t, p, GetWait(None));
    case Acquire(_) => QuietStepSafe(s, t, p, LockedPhase(ph).value);
    case Release(_) => QuietStepSafe(s, t, p, Idle);
  }

  lemma SeeEmptySafe(s: State, p: Pid, t: State)
    requires Safe(s) && Next(s, SeeEmpty(p)) == Some(t)
    ensures Safe(t)
  {
    var ph := At(s, p);
    if ph.SetDrain? {
      QuietStepSafe(s, t, p, SetPut(ph.v));
    } else if ph.hand.Some? {
      QuietStepSafe(s, t, p, GetPut(ph.hand.value));
    } else {
      RecordStepSafe(s, t, p, DidGet(p, None), []);
    }
  }

  lemma DrainSafe(s: State, p: Pid, t: State)
    requires Safe(s) && Next(s, Drain(p)) == Some(t)
    ensures Safe(t)
  {
    var ph := At(s, p);
    if ph.SetDrain? {
      assert s.phase[p := ph] == s.phase;
      RemoveStepSafe(s, t, p, ph);
    } else {
      RemoveStepSafe(s, t, p, GetDrain(Some(s.queue[0])));
    }
  }

  lemma StepSafe(s: State, a: Action, t: State)
    requires Safe(s) && Next(s, a) == Some(t)
    ensures Safe(t)
  {
    var p, ph := a.p, At(s, a.p);
    match a
    case Drain(_) => DrainSafe(s, p, t);
    case SeeEmpty(_) => SeeEmptySafe(s, p, t);
    case Put(_) =>
      if ph.SetPut? {
        RecordStepSafe(s, t, p, DidSet(ph.v), [ph.v]);
      } else {
        RecordStepSafe(s, t, p, DidGet(p, Some(ph.value)), [ph.value]);
      }
    case Read(_) => RecordStepSafe(s, t, p, DidHas(p, s.queue != []), s.queue);
    case _ => OuterStepSafe(s, a, t);
  }

  /**
    In every interleaving of any number of setters, getters and testers: at
    most one value is queued, every value returned was set before, and once a
    set has taken place the value is never lost.
   */
  lemma {:induction false} EveryRunIsSafe(acts: seq<Action>)
    requires Exec(acts).Some?
    ensures Safe(Exec(acts).value)
    decreases |acts|
  {
    if acts != [] {
      var init := acts[..|acts| - 1];
      EveryRunIsSafe(init);
      StepSafe(Exec(init).value, acts[|acts| - 1], Exec(acts).value);
    }
  }

  /** When nobody is inside an operation, exactly one value is queued, or none was ever set. */
  lemma QuiescentHoldsOneValue(acts: seq<Action>)
    requires Exec(acts).Some? && forall p :: At(Exec(acts).value, p).Idle?
    ensures var s := Exec(acts).value;
            if LastSet(s.log).Some? then |s.queue| == 1 else s.queue == []
  {
    EveryRunIsSafe(acts);
    var s := Exec(acts).value;
    if s.queue != [] {
      var v := s.queue[0];
      assert v in s.queue && WasSet(s.log, v);
    }
  }

  // ------------------------------------------------------------- when the latest value is what a get returns

  /** A get returns the value of the last set before it, or fails if there was none. */
  ghost predicate LatestAt(log: seq<Event>, i: int)
    requires 0 <= i < |log|
  {
    log[i].DidGet? ==> log[i].result == LastSet(log[..i])
  }

  ghost predicate AllLatest(log: seq<Event>) {
    forall i :: 0 <= i < |log| ==> LatestAt(log, i)
  }

  /** Only the latest value is queued; if it is not, a setter is about to replace it or a getter has it in hand. */
  ghost predicate Located(s: State) {
    && (forall v :: v in s.queue ==> Some(v) == LastSet(s.log))
    && (LastSet(s.log).Some? && s.queue == [] ==>
          exists p :: Setting(At(s, p)) || Hand(At(s, p)) == LastSet(s.log))
  }

  /** An event's standing does not depend on later events. */
  lemma LatestAtPrefix(log: seq<Event>, e: Event, i: nat)
    requires i < |log|
    ensures LatestAt(log + [e], i) <==> LatestAt(log, i)
  {
    assert (log + [e])[..i] == log[..i] && (log + [e])[i] == log[i];
  }

  lemma LatestSnoc(log: seq<Event>, e: Event)
    ensures AllLatest(log + [e]) <==> AllLatest(log) && (e.DidGet? ==> e.result == LastSet(log))
    ensures LastSet(log + [e]) == if e.DidSet? then Some(e.v) else LastSet(log)
  {
    var l := log + [e];
    assert l[..|l| - 1] == log && l[|log|] == e;
    assert LatestAt(l, |log|) <==> (e.DidGet? ==> e.result == LastSet(log));
    forall i: nat | i < |log| ensures LatestAt(l, i) <==> LatestAt(log, i) {
      LatestAtPrefix(log, e, i);
    }
  }

  /** Steps that change neither queue nor log keep every value where it is. */
  lemma QuietStepLocated(s: State, t: State, p: Pid, ph: Phase)
    requires Located(s) && t == Go(s, p, ph).(holder := t.holder)
    requires Hand(ph) == Hand(At(s, p)) && (Setting(At(s, p)) ==> Setting(ph))
    ensures Located(t)
  {
    if LastSet(s.log).Some? && s.queue == [] {
      var q :| Setting(At(s, q)) || Hand(At(s, q)) == LastSet(s.log);
      assert Setting(At(t, q)) || Hand(At(t, q)) == LastSet(t.log);
    }
  }

  /** The queued value goes into the taker's hand, or the taker is a setter. */
  lemma RemoveStepLocated(s: State, t: State, p: Pid, ph: Phase)
    requires Safe(s) && Located(s) && s.queue != [] && t == Go(s, p, ph).(queue := s.queue[1..])
    requires Setting(ph) || Hand(ph) == Some(s.queue[0])
    ensures Located(t)
  {
    var v := s.queue[0];
    assert v in s.queue;
    assert Setting(At(t, p)) || Hand(At(t, p)) == LastSet(t.log);
  }

  /** A step that records something leaves the latest value queued, or in the hand it is in. */
  lemma RecordStepLocated(s: State, t: State, p: Pid, e: Event, q: seq<Value>)
    requires Safe(s) && Located(s) && s.holder == Some(p)
    requires t == Go(s, p, Leave).(queue := q, log := s.log + [e])
    requires e.DidSet? ==> q == [e.v]
    requires e.DidGet? ==> e.result == LastSet(s.log) && q == if e.result.Some? then [e.result.value] else []
    requires e.DidHas? ==> q == s.queue && At(s, p).HasRead?
    ensures Located(t)
  {
    LatestSnoc(s.log, e);
    if e.DidHas? && LastSet(s.log).Some? && s.queue == [] {
      var o :| Setting(At(s, o)) || Hand(At(s, o)) == LastSet(s.log);
      assert Setting(At(t, o)) || Hand(At(t, o)) == LastSet(t.log);
    }
  }

  /** Steps that record nothing. */
  lemma SilentStepLocated(s: State, a: Action, t: State)
    requires Safe(s) && Located(s) && Next(s, a) == Some(t) && t.log == s.log
    ensures Located(t)
  {
    var p, ph := a.p, At(s, a.p);
    match a
    case BeginSet(_, v) => QuietStepLocated(s, t, p, SetWait(v));
    case BeginGet(_) => QuietStepLocated(s, t, p, GetTake);
    case BeginHas(_) => QuietStepLocated(s, t, p, HasWait);
    case Take(_) => RemoveStepLocated(s, t, p, GetWait(Some(s.queue[0])));
    case GiveUp(_) => QuietStepLocated(s, t, p, GetWait(None));
    case Acquire(_) => QuietStepLocated(s, t, p, LockedPhase(ph).value);
    case Release(_) => QuietStepLocated(s, t, p, Idle);
    case Drain(_) =>
      if ph.SetDrain? {
        assert s.phase[p := ph] == s.phase;
        RemoveStepLocated(s, t, p, ph);
      } else {
        RemoveStepLocated(s, t, p, GetDrain(Some(s.queue[0])));
      }
    case SeeEmpty(_) =>
      if ph.SetDrain? {
        QuietStepLocated(s, t, p, SetPut(ph.v));
      } else if ph.hand.Some? {
        QuietStepLocated(s, t, p, GetPut(ph.hand.value));
      }
    case Put(_) =>
    case Read(_) =>
  }

  /** The event a step records, if any. */
  function Recorded(s: State, a: Action): Option<Event> {
    var ph := At(s, a.p);
    if a.SeeEmpty? && ph == GetDrain(None) then Some(DidGet(a.p, None))
    else if a.Put? && ph.SetPut? then Some(DidSet(ph.v))
    else if a.Put? && ph.GetPut? then Some(DidGet(a.p, Some(ph.value)))
    else if a.Read? then Some(DidHas(a.p, s.queue != []))
    else None
  }

  lemma LogGrows(s: State, a: Action, t: State)
    requires Next(s, a) == Some(t)
    ensures t.log == if Recorded(s, a).Some? then s.log + [Recorded(s, a).value] else s.log
  {
  }

  /** While every get is right, the latest value is where it can be found. */
  lemma StepLocated(s: State, a: Action, t: State)
    requires Safe(s) && Located(s) && Next(s, a) == Some(t) && AllLatest(t.log)
    ensures Located(t)
  {
    LogGrows(s, a, t);
    var e := Recorded(s, a);
    if e.None? {
      SilentStepLocated(s, a, t);
    } else {
      LatestSnoc(s.log, e.value);
      RecordStepLocated(s, t, a.p, e.value, t.queue);
    }
  }

  lemma {:induction false} LatestIsLocated(acts: seq<Action>)
    requires Exec(acts).Some? && AllLatest(Exec(acts).value.log)
    ensures Located(Exec(acts).value)
    decreases |acts|
  {
    if acts != [] {
      var init := acts[..|acts| - 1];
      var s, a, t := Exec(init).value, acts[|acts| - 1], Exec(acts).value;
      LogGrows(s, a, t);
      if Recorded(s, a).Some? {
        LatestSnoc(s.log, Recorded(s, a).value);
      }
      LatestIsLocated(init);
      EveryRunIsSafe(init);
      StepLocated(s, a, t);
    }
  }

  /** A getter other than `p` has the latest value in hand. */
  ghost predicate Elsewhere(s: State, p: Pid) {
    LastSet(s.log).Some? && exists q :: q != p && Hand(At(s, q)) == LastSet(s.log)
  }

  /** Step `n` ends a get while another getter has the latest value in hand. */
  ghost predicate MissesAt(acts: seq<Action>, n: int)
    requires 0 <= n < |acts|
  {
    var s := Exec(acts[..n]);
    s.Some? && var e := Recorded(s.value, acts[n]);
               e.Some? && e.value.DidGet? && Elsewhere(s.value, acts[n].p)
  }

  ghost predicate NeverMisses(acts: seq<Action>) {
    forall n :: 0 <= n < |acts| ==> !MissesAt(acts, n)
  }

  lemma MissesSnoc(acts: seq<Action>)
    requires acts != []
    ensures NeverMisses(acts) <==> NeverMisses(acts[..|acts| - 1]) && !MissesAt(acts, |acts| - 1)
  {
    var init := acts[..|acts| - 1];
    assert forall n :: 0 <= n < |init| ==> init[..n] == acts[..n] && init[n] == acts[n];
    if NeverMisses(acts) {
      forall n | 0 <= n < |init| ensures !MissesAt(init, n) {
        assert !MissesAt(acts, n);
      }
    }
    if NeverMisses(init) && !MissesAt(acts, |acts| - 1) {
      forall n | 0 <= n < |acts| ensures !MissesAt(acts, n) {
        if n < |init| {
          assert !MissesAt(init, n);
        }
      }
    }
  }

  /** A get that ends with anything but the latest value leaves the latest value in another getter's hand. */
  lemma StaleMeansElsewhere(s: State, a: Action, t: State)
    requires Safe(s) && Located(s) && Next(s, a) == Some(t)
    requires Recorded(s, a).Some? && Recorded(s, a).value.DidGet?
    ensures Recorded(s, a).value.result != LastSet(s.log) ==> Elsewhere(s, a.p)
  {
    var p := a.p;
    assert HasLock(At(s, p)) && Recorded(s, a).value.result == Hand(At(s, p));
    if LastSet(s.log).Some? {
      var q :| Setting(At(s, q)) || Hand(At(s, q)) == LastSet(s.log);
      assert HasLock(At(s, q)) ==> q == p;
    } else {
      assert forall v :: !WasSet(s.log, v);
    }
  }

  /**
    In every interleaving, all gets return the latest value unless one of them
    ends while another getter has that value in hand.
   */
  lemma {:induction false} GetsAreLatestUnlessMissed(acts: seq<Action>)
    requires Exec(acts).Some? && NeverMisses(acts)
    ensures AllLatest(Exec(acts).value.log)
    decreases |acts|
  {
    if acts != [] {
      var init := acts[..|acts| - 1];
      var s, a, t := Exec(init).value, acts[|acts| - 1], Exec(acts).value;
      MissesSnoc(acts);
      GetsAreLatestUnlessMissed(init);
      LatestIsLocated(init);
      EveryRunIsSafe(init);
      LogGrows(s, a, t);
      if Recorded(s, a).Some? {
        LatestSnoc(s.log, Recorded(s, a).value);
        if Recorded(s, a).value.DidGet? {
          StaleMeansElsewhere(s, a, t);
        }
      }
    }
  }

  // ------------------------------------------------------------- with distinct values the condition is exact

  /** No two sets are for the same value. */
  ghost predicate DistinctSets(acts: seq<Action>) {
    forall i, j :: 0 <= i < j < |acts| && acts[i].BeginSet? && acts[j].BeginSet? ==> acts[i].v != acts[j].v
  }

  ghost predicate Begun(acts: seq<Action>, v: Value) {
    exists i :: 0 <= i < |acts| && acts[i].BeginSet? && acts[i].v == v
  }

  /** The value a setter has yet to put. */
  function Pending(ph: Phase): Option<Value> {
    match ph
    case SetWait(v) => Some(v)
    case SetDrain(v) => Some(v)
    case SetPut(v) => Some(v)
    case _ => None
  }

  /** No value is about to be set twice, or again. */
  ghost predicate PendingOnce(s: State) {
    && (forall p, q :: Pending(At(s, p)).Some? && Pending(At(s, p)) == Pending(At(s, q)) ==> p == q)
    && (forall p :: Pending(At(s, p)).Some? ==> !WasSet(s.log, Pending(At(s, p)).value))
  }

  /** No value is in two hands, or in a hand and queued. */
  ghost predicate InOnePlace(s: State) {
    && (forall p, q :: Hand(At(s, p)).Some? && Hand(At(s, p)) == Hand(At(s, q)) ==> p == q)
    && (forall p :: Hand(At(s, p)).Some? ==> Hand(At(s, p)).value !in s.queue)
  }

  ghost predicate AllBegun(acts: seq<Action>, s: State) {
    && (forall v :: WasSet(s.log, v) ==> Begun(acts, v))
    && (forall p :: Pending(At(s, p)).Some? ==> Begun(acts, Pending(At(s, p)).value))
  }

  lemma WasSetGrows(s: State, a: Action, t: State, v: Value)
    requires Next(s, a) == Some(t)
    ensures WasSet(t.log, v) <==> WasSet(s.log, v) || Recorded(s, a) == Some(DidSet(v))
  {
    LogGrows(s, a, t);
  }

  lemma StepPendingOnce(s: State, a: Action, t: State)
    requires PendingOnce(s) && Next(s, a) == Some(t)
    requires a.BeginSet? ==> !WasSet(s.log, a.v) && forall q :: Pending(At(s, q)) != Some(a.v)
    ensures PendingOnce(t)
  {
    NextFrame(s, a, t);
    var mine := Pending(At(t, a.p));
    assert mine == Pending(At(s, a.p)) || mine.None? || (a.BeginSet? && mine == Some(a.v));
    forall p | Pending(At(t, p)).Some? ensures !WasSet(t.log, Pending(At(t, p)).value) {
      WasSetGrows(s, a, t, Pending(At(t, p)).value);
    }
  }

  /** A value moves from the queue to a hand or back, or a setter brings one nobody has. */
  lemma StepInOnePlace(s: State, a: Action, t: State)
    requires Safe(s) && InOnePlace(s) && PendingOnce(s) && Next(s, a) == Some(t)
    ensures InOnePlace(t)
  {
    NextFrame(s, a, t);
    var ph, mine := At(s, a.p), Hand(At(t, a.p));
    if t.queue == s.queue {
      assert mine == Hand(ph) || mine.None?;
    } else if a.Put? {
      assert mine.None? && s.queue == [];
      if ph.SetPut? {
        assert !WasSet(s.log, Pending(ph).value);
      } else {
        assert Hand(ph).Some?;
      }
    } else {
      assert t.queue == [] && (mine.Some? ==> mine.value in s.queue);
    }
  }

  lemma StepBegun(acts: seq<Action>, s: State, a: Action, t: State)
    requires AllBegun(acts, s) && Next(s, a) == Some(t)
    ensures AllBegun(acts + [a], t)
  {
    NextFrame(s, a, t);
    LogGrows(s, a, t);
    var all := acts + [a];
    forall v | Begun(acts, v) ensures Begun(all, v) {
      var i :| 0 <= i < |acts| && acts[i].BeginSet? && acts[i].v == v;
      assert all[i].BeginSet? && all[i].v == v;
    }
    if a.BeginSet? {
      assert all[|acts|].BeginSet? && all[|acts|].v == a.v;
    }
  }

  lemma {:induction false} DistinctMeansOnePlace(acts: seq<Action>)
    requires Exec(acts).Some? && DistinctSets(acts)
    ensures PendingOnce(Exec(acts).value) && InOnePlace(Exec(acts).value) && AllBegun(acts, Exec(acts).value)
    decreases |acts|
  {
    if acts != [] {
      var init := acts[..|acts| - 1];
      var s, a, t := Exec(init).value, acts[|acts| - 1], Exec(acts).value;
      assert acts == init + [a];
      DistinctMeansOnePlace(init);
      EveryRunIsSafe(init);
      if a.BeginSet? {
        assert !Begun(init, a.v);
      }
      StepPendingOnce(s, a, t);
      StepInOnePlace(s, a, t);
      StepBegun(init, s, a, t);
    }
  }

  /**
    When no value is set twice this is the exact condition: all gets return
    the latest value if and only if none of them ends while another getter
    has that value in hand.
   */
  lemma {:induction false} GetsAreLatestExactlyWhen(acts: seq<Action>)
    requires Exec(acts).Some? && DistinctSets(acts)
    ensures AllLatest(Exec(acts).value.log) <==> NeverMisses(acts)
    decreases |acts|
  {
    if NeverMisses(acts) {
      GetsAreLatestUnlessMissed(acts);
    }
    if AllLatest(Exec(acts).value.log) && acts != [] {
      var init := acts[..|acts| - 1];
      var s, a, t := Exec(init).value, acts[|acts| - 1], Exec(acts).value;
      LogGrows(s, a, t);
      if Recorded(s, a).Some? {
        LatestSnoc(s.log, Recorded(s, a).value);
      }
      GetsAreLatestExactlyWhen(init);
      DistinctMeansOnePlace(init);
      MissesSnoc(acts);
      assert !MissesAt(acts, |acts| - 1);
    }
  }

  // ------------------------------------------------------------- a register, unless getters overlap

  /** Between its first take and its re-queueing, or having given up waiting. */
  predicate InWindow(ph: Phase) {
    ph.GetWait? || ph.GetDrain? || ph.GetPut?
  }

  ghost predicate NoOverlap(s: State) {
    forall p, q :: InWindow(At(s, p)) && InWindow(At(s, q)) ==> p == q
  }

  ghost predicate NeverOverlaps(acts: seq<Action>) {
    forall n :: 0 <= n <= |acts| && Exec(acts[..n]).Some? ==> NoOverlap(Exec(acts[..n]).value)
  }

  ghost predicate SetterInside(s: State) {
    exists p :: Setting(At(s, p))
  }

  /** `v`, if any, is the latest value, or the latest one is still queued or about to be. */
  ghost predicate Current(s: State, v: Option<Value>) {
    v == LastSet(s.log) || s.queue != [] || SetterInside(s)
  }

  ghost predicate Register(s: State) {
    && (forall v :: v in s.queue ==> Some(v) == LastSet(s.log))
    && (forall p :: InWindow(At(s, p)) ==> Current(s, Hand(At(s, p))))
    && ((forall p :: !InWindow(At(s, p))) ==> Current(s, None))
    && AllLatest(s.log)
  }

  lemma LocatedIsRegister(s: State)
    requires Safe(s) && Located(s) && NoOverlap(s) && AllLatest(s.log)
    ensures Register(s)
  {
    if LastSet(s.log).Some? {
      if s.queue == [] && !SetterInside(s) {
        var q :| Setting(At(s, q)) || Hand(At(s, q)) == LastSet(s.log);
        assert InWindow(At(s, q));
      }
    } else {
      assert forall v :: !WasSet(s.log, v);
    }
  }

  /**
    If no getter takes a value while another one has not re-queued its own,
    the queue behaves as an atomic register: every get returns the value of
    the last set whose locked section came before its own, and fails exactly
    when there was none.  Setters and testers may interleave at will.
   */
  lemma WithoutOverlapIsRegister(acts: seq<Action>)
    requires Exec(acts).Some? && NeverOverlaps(acts)
    ensures Register(Exec(acts).value)
  {
    forall n | 0 <= n < |acts| && Exec(acts[..n]).Some? && InWindow(At(Exec(acts[..n]).value, acts[n].p))
      ensures !Elsewhere(Exec(acts[..n]).value, acts[n].p)
    {
      var s := Exec(acts[..n]).value;
      assert NoOverlap(s);
      forall q | q != acts[n].p ensures Hand(At(s, q)).None? {
      }
    }
    GetsAreLatestUnlessMissed(acts);
    LatestIsLocated(acts);
    EveryRunIsSafe(acts);
    assert acts[..|acts|] == acts && NoOverlap(Exec(acts).value);
    LocatedIsRegister(Exec(acts).value);
  }

  /**
    While all gets are right, a tester that says yes sees the latest value,
    and one that says no is right too, unless a getter has it in hand.
   */
  lemma TesterIsRightUnlessInHand(acts: seq<Action>, p: Pid)
    requires Exec(acts).Some? && AllLatest(Exec(acts).value.log)
    requires At(Exec(acts).value, p).HasRead?
    ensures var s := Exec(acts).value;
      if s.queue != [] then LastSet(s.log).Some? && s.queue == [LastSet(s.log).value]
      else LastSet(s.log).Some? <==> exists q :: Hand(At(s, q)).Some? && Hand(At(s, q)) == LastSet(s.log)
  {
    EveryRunIsSafe(acts);
    LatestIsLocated(acts);
    var s := Exec(acts).value;
    assert HasLock(At(s, p));
    assert forall q :: !Setting(At(s, q));
    if s.queue != [] {
      var v := s.queue[0];
      assert v in s.queue;
    }
  }

  // ------------------------------------------------------------- a default is a test and then a set

  /** Step `k` of a run records `e`. */
  ghost predicate EventAt(acts: seq<Action>, k: int, e: Event)
    requires 0 <= k < |acts|
  {
    Exec(acts[..k]).Some? && Recorded(Exec(acts[..k]).value, acts[k]) == Some(e)
  }

  ghost predicate SetAt(acts: seq<Action>, k: int)
    requires 0 <= k < |acts|
  {
    exists v :: EventAt(acts, k, DidSet(v))
  }

  lemma {:induction false} PrefixRuns(acts: seq<Action>, k: nat)
    requires Exec(acts).Some? && k <= |acts|
    ensures Exec(acts[..k]).Some?
    decreases |acts|
  {
    if k < |acts| {
      var init := acts[..|acts| - 1];
      assert init[..k] == acts[..k];
      PrefixRuns(init, k);
    } else {
      assert acts[..k] == acts;
    }
  }

  lemma SetStep(acts: seq<Action>, k: nat)
    requires Exec(acts).Some? && k < |acts|
    ensures Exec(acts[..k]).Some? && Exec(acts[..k + 1]).Some?
    ensures LastSet(Exec(acts[..k + 1]).value.log).Some? <==>
              LastSet(Exec(acts[..k]).value.log).Some? || SetAt(acts, k)
  {
    PrefixRuns(acts, k);
    PrefixRuns(acts, k + 1);
    assert acts[..k + 1][..k] == acts[..k];
    var s, a, t := Exec(acts[..k]).value, acts[k], Exec(acts[..k + 1]).value;
    LogGrows(s, a, t);
    var e := Recorded(s, a);
    if e.Some? {
      LatestSnoc(s.log, e.value);
      if e.value.DidSet? {
        assert EventAt(acts, k, DidSet(e.value.v));
      }
    }
  }

  /** What is switched on and never off is on at the end exactly when it was on at the start or switched on since. */
  lemma {:induction false} SwitchedOn(on: seq<bool>, switch: seq<bool>, i: nat, j: nat)
    requires i <= j <= |switch| && |on| == |switch| + 1
    requires forall k :: 0 <= k < |switch| ==> (on[k + 1] <==> on[k] || switch[k])
    ensures on[j] <==> on[i] || exists k :: i <= k < j && switch[k]
    decreases j
  {
    if i < j {
      SwitchedOn(on, switch, i, j - 1);
      var k0 := j - 1;
      assert on[k0 + 1] <==> on[k0] || switch[k0];
    }
  }

  ghost predicate AnySet(acts: seq<Action>, k: int)
    requires 0 <= k <= |acts|
  {
    Exec(acts[..k]).Some? && LastSet(Exec(acts[..k]).value.log).Some?
  }

  /** A value is set at the end of a stretch exactly when one was before it, or is set within it. */
  lemma SetBefore(acts: seq<Action>, i: nat, j: nat)
    requires Exec(acts).Some? && i <= j <= |acts|
    ensures AnySet(acts, j) <==> AnySet(acts, i) || exists k :: i <= k < j && SetAt(acts, k)
  {
    var on := seq(|acts| + 1, k requires 0 <= k <= |acts| => AnySet(acts, k));
    var switch := seq(|acts|, k requires 0 <= k < |acts| => SetAt(acts, k));
    forall k: nat | k < |acts| ensures on[k + 1] <==> on[k] || switch[k] {
      SetStep(acts, k);
    }
    SwitchedOn(on, switch, i, j);
    assert forall k :: 0 <= k < |acts| ==> (switch[k] <==> SetAt(acts, k));
  }

  /** A tester that says no is wrong exactly when a getter has a value in hand; one that says yes is right. */
  lemma TesterIsWrongExactlyWhen(acts: seq<Action>, p: Pid)
    requires Exec(acts).Some? && At(Exec(acts).value, p).HasRead?
    ensures var s := Exec(acts).value;
      && (s.queue != [] ==> LastSet(s.log).Some?)
      && (s.queue == [] ==> (LastSet(s.log).Some? <==> exists q :: Hand(At(s, q)).Some?))
  {
    EveryRunIsSafe(acts);
    var s := Exec(acts).value;
    assert HasLock(At(s, p));
    assert forall q :: !Setting(At(s, q));
    if s.queue != [] {
      var v := s.queue[0];
      assert v in s.queue;
    }
  }

  /** Before step `i` a getter has a value in hand. */
  ghost predicate InHand(acts: seq<Action>, i: int)
    requires 0 <= i <= |acts|
  {
    Exec(acts[..i]).Some? && exists q :: Hand(At(Exec(acts[..i]).value, q)).Some?
  }

  /**
    A default is set although the attribute was set already if and only if a
    getter had a value in hand at the test, or a set took place after the test.
   */
  lemma DefaultOverwritesExactlyWhen(acts: seq<Action>, i: nat, j: nat, p: Pid)
    requires Exec(acts).Some? && i < j < |acts| && acts[i].p == p
    requires EventAt(acts, i, DidHas(p, false))
    ensures AnySet(acts, j) <==> InHand(acts, i) || exists k :: i < k < j && SetAt(acts, k)
  {
    ReadsAt(acts, i, p, false);
    TesterIsWrongExactlyWhen(acts[..i], p);
    assert !SetAt(acts, i);
    SetBefore(acts, i, j);
    assert forall k :: i <= k < j && SetAt(acts, k) ==> i < k;
  }

  lemma ReadsAt(acts: seq<Action>, i: nat, p: Pid, answer: bool)
    requires Exec(acts).Some? && i < |acts| && EventAt(acts, i, DidHas(p, answer)) && acts[i].p == p
    ensures Exec(acts[..i]).Some? && At(Exec(acts[..i]).value, p).HasRead?
    ensures answer == (Exec(acts[..i]).value.queue != [])
  {
    PrefixRuns(acts, i + 1);
    assert acts[..i + 1][..i] == acts[..i] && acts[..i + 1][|acts[..i + 1]| - 1] == acts[i];
  }

  // ------------------------------------------------------------- what overlapping getters break

  lemma Exec1(acts: seq<Action>, a: Action, s: State, t: State)
    requires Exec(acts) == Some(s) && Next(s, a) == Some(t)
    ensures Exec(acts + [a]) == Some(t)
  {
    assert (acts + [a])[..|acts + [a]| - 1] == acts;
  }

  /** No step changes where another process is. */
  lemma NextFrame(s: State, a: Action, t: State)
    requires Next(s, a) == Some(t)
    ensures forall q :: q != a.p ==> At(t, q) == At(s, q)
  {
  }

  /** `acts` lead to `s`, in which process `p` is at `ph`, and the others are as in `r`. */
  ghost predicate Reached(acts: seq<Action>, s: State, p: Pid, ph: Phase, r: State) {
    Exec(acts) == Some(s) && At(s, p) == ph && forall q :: q != p ==> At(s, q) == At(r, q)
  }

  lemma Advance(acts: seq<Action>, s: State, p: Pid, r: State, a: Action, t: State)
    requires Reached(acts, s, p, At(s, p), r) && a.p == p && Next(s, a) == Some(t)
    ensures Reached(acts + [a], t, p, At(t, p), r)
  {
    Exec1(acts, a, s, t);
    NextFrame(s, a, t);
  }

  /** A process that found the queue empty puts its value and leaves. */
  lemma PutAndLeave(acts: seq<Action>, s: State, p: Pid, v: Value, e: Event, r: State) returns (t: State)
    requires Reached(acts, s, p, At(s, p), r) && s.queue == [] && s.holder == Some(p)
    requires (At(s, p) == SetPut(v) && e == DidSet(v)) || (At(s, p) == GetPut(v) && e == DidGet(p, Some(v)))
    ensures Reached(acts + [Put(p)] + [Release(p)], t, p, Idle, r)
    ensures t.queue == [v] && t.holder.None? && t.log == s.log + [e]
  {
    var s1 := Next(s, Put(p)).value;
    Advance(acts, s, p, r, Put(p), s1);
    t := Next(s1, Release(p)).value;
    Advance(acts + [Put(p)], s1, p, r, Release(p), t);
  }

  /** A process with the lock and an empty queue re-queues or sets its value. */
  lemma CloseSection(acts: seq<Action>, s: State, p: Pid, v: Value, e: Event, r: State) returns (rest: seq<Action>, t: State)
    requires Reached(acts, s, p, At(s, p), r) && s.queue == [] && s.holder == Some(p)
    requires (At(s, p) == SetDrain(v) && e == DidSet(v)) || (At(s, p) == GetDrain(Some(v)) && e == DidGet(p, Some(v)))
    ensures Reached(acts + rest, t, p, Idle, r)
    ensures t.queue == [v] && t.holder.None? && t.log == s.log + [e]
  {
    var s1 := Next(s, SeeEmpty(p)).value;
    Advance(acts, s, p, r, SeeEmpty(p), s1);
    t := PutAndLeave(acts + [SeeEmpty(p)], s1, p, v, e, r);
    rest := [SeeEmpty(p), Put(p), Release(p)];
    assert acts + rest == acts + [SeeEmpty(p)] + [Put(p)] + [Release(p)];
  }

  /** A whole set that meets an empty queue. */
  lemma SetFromEmpty(acts: seq<Action>, s: State, p: Pid, v: Value) returns (all: seq<Action>, t: State)
    requires Exec(acts) == Some(s) && s.queue == [] && s.holder.None? && At(s, p).Idle?
    ensures Reached(all, t, p, Idle, s)
    ensures t.queue == [v] && t.holder.None? && t.log == s.log + [DidSet(v)]
  {
    var s1 := Next(s, BeginSet(p, v)).value;
    Advance(acts, s, p, s, BeginSet(p, v), s1);
    var s2 := Next(s1, Acquire(p)).value;
    Advance(acts + [BeginSet(p, v)], s1, p, s, Acquire(p), s2);
    var rest;
    rest, t := CloseSection(acts + [BeginSet(p, v)] + [Acquire(p)], s2, p, v, DidSet(v), s);
    all := acts + [BeginSet(p, v)] + [Acquire(p)] + rest;
  }

  /** A getter begins and takes the queued value. */
  lemma GetTakes(acts: seq<Action>, s: State, p: Pid) returns (all: seq<Action>, t: State)
    requires Exec(acts) == Some(s) && |s.queue| == 1 && At(s, p).Idle?
    ensures Reached(all, t, p, GetWait(Some(s.queue[0])), s)
    ensures t.queue == [] && t.holder == s.holder && t.log == s.log
  {
    var s1 := Next(s, BeginGet(p)).value;
    Advance(acts, s, p, s, BeginGet(p), s1);
    t := Next(s1, Take(p)).value;
    Advance(acts + [BeginGet(p)], s1, p, s, Take(p), t);
    all := acts + [BeginGet(p)] + [Take(p)];
  }

  /** A getter re-queues the value in its hand, or the queued one if there is one. */
  lemma GetFinishes(acts: seq<Action>, s: State, p: Pid, v: Value) returns (all: seq<Action>, t: State)
    requires Exec(acts) == Some(s) && s.holder.None? && At(s, p) == GetWait(Some(v)) && |s.queue| <= 1
    ensures var w := if s.queue == [] then v else s.queue[0];
            t.queue == [w] && t.log == s.log + [DidGet(p, Some(w))]
    ensures t.holder.None? && Reached(all, t, p, Idle, s)
  {
    var s1 := Next(s, Acquire(p)).value;
    Advance(acts, s, p, s, Acquire(p), s1);
    var s2, a2, w := s1, acts + [Acquire(p)], v;
    if s.queue != [] {
      w := s.queue[0];
      s2 := Next(s1, Drain(p)).value;
      Advance(a2, s1, p, s, Drain(p), s2);
      a2 := a2 + [Drain(p)];
    }
    var rest;
    rest, t := CloseSection(a2, s2, p, w, DidGet(p, Some(w)), s);
    all := a2 + rest;
  }

  /**
    With two overlapping getters the last write can be lost for good: both
    getters return the first value although the second set was complete before
    either of them entered its locked section, and the first value remains.
   */
  lemma OverlapLosesTheLastSet(first: Value, second: Value) returns (acts: seq<Action>)
    requires first != second
    ensures Exec(acts).Some?
    ensures var s := Exec(acts).value;
      && s.log == [DidSet(first), DidSet(second), DidGet(1, Some(first)), DidGet(2, Some(first))]
      && s.queue == [first] && LastSet(s.log) == Some(second)
    ensures !Register(Exec(acts).value)
  {
    var s;
    acts, s := SetFromEmpty([], Init, 0, first);
    acts, s := GetTakes(acts, s, 1);
    acts, s := SetFromEmpty(acts, s, 0, second);
    acts, s := GetTakes(acts, s, 2);
    acts, s := GetFinishes(acts, s, 1, first);
    acts, s := GetFinishes(acts, s, 2, second);
    LostSet(s, first, second);
  }

  lemma LostSet(s: State, first: Value, second: Value)
    requires first != second && s.queue == [first]
    requires s.log == [DidSet(first), DidSet(second), DidGet(1, Some(first)), DidGet(2, Some(first))]
    ensures LastSet(s.log) == Some(second) && !Register(s)
  {
    var log := s.log;
    assert log[..3] == [DidSet(first), DidSet(second), DidGet(1, Some(first))];
    assert log[..3][..2] == [DidSet(first), DidSet(second)];
    assert LastSet(log[..3][..2]) == Some(second);
    assert LastSet(log[..3]) == Some(second);
    assert first in s.queue;
  }

  // ------------------------------------------------------------- how a default overwrites a value

  /** A whole test that meets an empty queue. */
  lemma TestEmpty(acts: seq<Action>, s: State, p: Pid) returns (all: seq<Action>, t: State)
    requires Exec(acts) == Some(s) && s.queue == [] && s.holder.None? && At(s, p).Idle?
    ensures Reached(all, t, p, Idle, s)
    ensures t.queue == [] && t.holder.None? && t.log == s.log + [DidHas(p, false)]
  {
    var s1 := Next(s, BeginHas(p)).value;
    Advance(acts, s, p, s, BeginHas(p), s1);
    var s2 := Next(s1, Acquire(p)).value;
    Advance(acts + [BeginHas(p)], s1, p, s, Acquire(p), s2);
    var s3 := Next(s2, Read(p)).value;
    Advance(acts + [BeginHas(p)] + [Acquire(p)], s2, p, s, Read(p), s3);
    t := Next(s3, Release(p)).value;
    Advance(acts + [BeginHas(p)] + [Acquire(p)] + [Read(p)], s3, p, s, Release(p), t);
    all := acts + [BeginHas(p)] + [Acquire(p)] + [Read(p)] + [Release(p)];
  }

  /** While a getter has the value in hand the attribute looks unset, and the default replaces it for good. */
  lemma DefaultOverwritesValueInHand(value: Value, default: Value) returns (acts: seq<Action>)
    ensures Exec(acts).Some?
    ensures var s := Exec(acts).value;
      && s.log == [DidSet(value), DidHas(2, false), DidSet(default), DidGet(1, Some(default))]
      && s.queue == [default]
  {
    var s;
    acts, s := SetFromEmpty([], Init, 0, value);
    acts, s := GetTakes(acts, s, 1);
    acts, s := TestEmpty(acts, s, 2);
    acts, s := SetFromEmpty(acts, s, 2, default);
    acts, s := GetFinishes(acts, s, 1, value);
  }
}
