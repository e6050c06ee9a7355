/**
  The operations on one parallel attribute as a process executes them among
  others, and the proof that they are runs of the state machine.  Before each
  step of a process, any number of steps of the other processes may happen.
 */
module ParallelAttrs {
  import opened Basics
  import opened RunAttributes

  /** `NotSet` is raised for timeout 0, `TimedOut` otherwise. */
  datatype AttrError = UnknownAttr | NotSet | TimedOut

  /** How an operation ends; it is `Waiting` if it never gets the lock or the value it waits for. */
  datatype Reply<+T> = Waiting | Done(value: T) | Raised(error: AttrError)

  /** What the other processes attempt before each step of this one; impossible steps are skipped. */
  type Turns = nat -> seq<Action>

  ghost predicate Alone(turns: Turns) {
    forall i :: turns(i) == []
  }

  // ------------------------------------------------------------- what a process adds to a run

  /** A step of `p` that records something. */
  ghost predicate Speaks(acts: seq<Action>, k: int, p: Pid)
    requires 0 <= k < |acts|
  {
    acts[k].p == p && exists e :: EventAt(acts, k, e)
  }

  /** From `was` to `now`, process `p` has recorded nothing. */
  ghost predicate Silent(was: seq<Action>, now: seq<Action>, p: Pid) {
    was <= now && forall k :: |was| <= k < |now| ==> !Speaks(now, k, p)
  }

  /** From `was` to `now`, process `p` has recorded just `e`, at step `k`. */
  ghost predicate DidAt(was: seq<Action>, now: seq<Action>, p: Pid, e: Event, k: int) {
    && was <= now && |was| <= k < |now| && now[k].p == p && EventAt(now, k, e)
    && forall j :: |was| <= j < |now| && j != k ==> !Speaks(now, j, p)
  }

  ghost predicate Did(was: seq<Action>, now: seq<Action>, p: Pid, e: Event) {
    exists k :: DidAt(was, now, p, e, k)
  }

  lemma SpeaksStable(mid: seq<Action>, now: seq<Action>, k: nat, p: Pid)
    requires mid <= now && k < |mid|
    ensures Speaks(now, k, p) <==> Speaks(mid, k, p)
  {
    assert now[..k] == mid[..k];
    assert forall e :: EventAt(now, k, e) <==> EventAt(mid, k, e);
  }

  lemma SilentThenSilent(was: seq<Action>, mid: seq<Action>, now: seq<Action>, p: Pid)
    requires Silent(was, mid, p) && Silent(mid, now, p)
    ensures Silent(was, now, p)
  {
    forall k | |was| <= k < |now| ensures !Speaks(now, k, p) {
      if k < |mid| {
        SpeaksStable(mid, now, k, p);
      }
    }
  }

  lemma SilentThenDid(was: seq<Action>, mid: seq<Action>, now: seq<Action>, p: Pid, e: Event)
    requires Silent(was, mid, p) && Did(mid, now, p, e)
    ensures Did(was, now, p, e)
  {
    var k :| DidAt(mid, now, p, e, k);
    forall j | |was| <= j < |now| && j != k ensures !Speaks(now, j, p) {
      if j < |mid| {
        SpeaksStable(mid, now, j, p);
      }
    }
    assert DidAt(was, now, p, e, k);
  }

  lemma DidThenSilent(was: seq<Action>, mid: seq<Action>, now: seq<Action>, p: Pid, e: Event)
    requires Did(was, mid, p, e) && Silent(mid, now, p)
    ensures Did(was, now, p, e)
  {
    var k :| DidAt(was, mid, p, e, k);
    assert now[..k] == mid[..k];
    forall j | |was| <= j < |now| && j != k ensures !Speaks(now, j, p) {
      if j < |mid| {
        SpeaksStable(mid, now, j, p);
      }
    }
    assert DidAt(was, now, p, e, k);
  }

  lemma OneStep(was: seq<Action>, acts: seq<Action>, s: State, a: Action, p: Pid)
    requires Exec(acts) == Some(s) && Silent(was, acts, p)
    ensures a.p != p || Recorded(s, a).None? ==> Silent(was, acts + [a], p)
    ensures a.p == p && Recorded(s, a).Some? ==> Did(was, acts + [a], p, Recorded(s, a).value)
  {
    var now := acts + [a];
    assert now[..|acts|] == acts && now[|acts|] == a;
    if a.p != p || Recorded(s, a).None? {
      assert Silent(acts, now, p);
      SilentThenSilent(was, acts, now, p);
    } else {
      assert DidAt(acts, now, p, Recorded(s, a).value, |acts|);
      SilentThenDid(was, acts, now, p, Recorded(s, a).value);
    }
  }

  /** All processes but `p` are where they were. */
  ghost predicate OthersStay(s: State, t: State, p: Pid) {
    forall q :: q != p ==> At(t, q) == At(s, q)
  }

  class LockableQueue {
    var queue: seq<Value>
    /** Where all processes are, and the steps that led there. */
    var st: State
    ghost var acts: seq<Action>

    constructor ()
      ensures Valid() && st == Init
    {
      queue, acts, st := [], [], Init;
    }

    /** The queue is what the steps taken so far leave in it. */
    ghost predicate Valid()
      reads this
    {
      Exec(acts) == Some(st) && st.queue == queue
    }

    /** Process `p` may begin an operation. */
    ghost predicate Ready(p: Pid)
      reads this
    {
      Valid() && At(st, p).Idle?
    }

    /** Since `was`, process `p` has recorded nothing; it is now at `ph` and has the lock. */
    ghost predicate Holding(was: seq<Action>, p: Pid, ph: Phase)
      reads this
    {
      Valid() && At(st, p) == ph && st.holder == Some(p) && Silent(was, acts, p)
    }

    /** A step of process `p`. */
    method Step(p: Pid, a: Action, ghost was: seq<Action>)
      requires Exec(acts) == Some(st) && Next(st, a).Some? && Silent(was, acts, p)
      modifies this`acts, this`st
      ensures Exec(acts) == Some(st) && Some(st) == Next(old(st), a)
      ensures OthersStay(old(st), st, a.p)
      ensures a.p != p || Recorded(old(st), a).None? ==> Silent(was, acts, p)
      ensures a.p == p && Recorded(old(st), a).Some? ==> Did(was, acts, p, Recorded(old(st), a).value)
    {
      Exec1(acts, a, st, Next(st, a).value);
      NextFrame(st, a, Next(st, a).value);
      OneStep(was, acts, st, a, p);
      st, acts := Next(st, a).value, acts + [a];
    }

    /** Steps of the other processes.  Under the lock of `p` they cannot add to the queue. */
    method Others(p: Pid, turn: seq<Action>, ghost was: seq<Action>)
      requires Valid() && Silent(was, acts, p)
      modifies this
      ensures Valid() && Silent(was, acts, p) && At(st, p) == At(old(st), p)
      ensures old(st).holder == Some(p) ==> st.holder == Some(p) && |queue| <= |old(queue)|
      ensures turn == [] ==> st == old(st) && queue == old(queue)
    {
      for i := 0 to |turn|
        invariant Valid() && Silent(was, acts, p) && At(st, p) == At(old(st), p)
        invariant old(st).holder == Some(p) ==> st.holder == Some(p) && |queue| <= |old(queue)|
        invariant i == 0 ==> st == old(st) && queue == old(queue)
      {
        var a := turn[i];
        if a.p != p && Next(st, a).Some? {
          EveryRunIsSafe(acts);
          Step(p, a, was);
          queue := st.queue;
        }
      }
    }

    /** Somebody other than `p` has the lock. */
    ghost predicate HeldByAnother(p: Pid)
      reads this
    {
      st.holder.Some? && st.holder.value != p
    }

    /** Waits for the lock while the others go on; gives up the model's time while another has it. */
    method Lock(p: Pid, turn: seq<Action>, ghost was: seq<Action>) returns (got: bool)
      requires Valid() && Silent(was, acts, p) && LockedPhase(At(st, p)).Some?
      modifies this
      ensures if got then Holding(was, p, LockedPhase(At(old(st), p)).value)
              else Valid() && Silent(was, acts, p) && At(st, p) == At(old(st), p) && HeldByAnother(p)
      ensures turn == [] ==>
        && got == old(st).holder.None? && queue == old(queue) && st.log == old(st.log) && OthersStay(old(st), st, p)
    {
      Others(p, turn, was);
      got := st.holder.None?;
      if got {
        Step(p, Acquire(p), was);
      } else {
        EveryRunIsSafe(acts);
        assert !HasLock(At(st, p));
      }
    }

    /** Empties the queue, sets the value and records that; or waits for the lock for good. */
    method SetParallel(p: Pid, v: Value, turns: Turns) returns (r: Reply<()>)
      requires Ready(p)
      modifies this
      ensures Valid() && !r.Raised?
      ensures if r.Done? then At(st, p).Idle? && Did(old(acts), acts, p, DidSet(v))
              else At(st, p) == SetWait(v) && Silent(old(acts), acts, p) && HeldByAnother(p)
      ensures Alone(turns) ==> (r.Done? <==> old(st).holder.None?)
      ensures Alone(turns) && r.Done? ==>
        queue == [v] && st.log == old(st.log) + [DidSet(v)] && st.holder.None? && OthersStay(old(st), st, p)
    {
      ghost var was := acts;
      Others(p, turns(0), was);
      Step(p, BeginSet(p, v), was);
      var got := Lock(p, turns(1), was);
      if !got {
        return Waiting;
      }
      var n := 2;
      while queue != []
        invariant Holding(was, p, SetDrain(v))
        invariant Alone(turns) ==> st.log == old(st.log) && OthersStay(old(st), st, p)
        decreases |queue|
      {
        queue := queue[1..];
        Step(p, Drain(p), was);
        Others(p, turns(n), was);
        n := n + 1;
      }
      Step(p, SeeEmpty(p), was);
      PutBack(p, v, DidSet(v), turns(n), turns(n + 1), was);
      r := Done(());
    }

    /** Puts a value into the empty queue and releases the lock. */
    method PutBack(p: Pid, v: Value, ghost e: Event, before: seq<Action>, after: seq<Action>, ghost was: seq<Action>)
      requires queue == [] && Holding(was, p, At(st, p))
      requires (At(st, p) == SetPut(v) && e == DidSet(v)) || (At(st, p) == GetPut(v) && e == DidGet(p, Some(v)))
      modifies this
      ensures Ready(p) && Did(was, acts, p, e)
      ensures before == after == [] ==>
        queue == [v] && st.log == old(st.log) + [e] && st.holder.None? && OthersStay(old(st), st, p)
    {
      Others(p, before, was);
      queue := queue + [v];
      Step(p, Put(p), was);
      Leave(p, e, after, was);
    }

    /** Releases the lock, all being recorded. */
    method Leave(p: Pid, ghost e: Event, turn: seq<Action>, ghost was: seq<Action>)
      requires Valid() && At(st, p) == Phase.Leave && st.holder == Some(p) && Did(was, acts, p, e)
      modifies this
      ensures Ready(p) && Did(was, acts, p, e)
      ensures turn == [] ==>
        queue == old(queue) && st.log == old(st.log) && st.holder.None? && OthersStay(old(st), st, p)
    {
      ghost var mid := acts;
      Others(p, turn, mid);
      Step(p, Release(p), mid);
      DidThenSilent(was, mid, acts, p, e);
    }

    /** Records whether a value is queued at some moment under the lock. */
    method HasParallel(p: Pid, turns: Turns) returns (r: Reply<bool>)
      requires Ready(p)
      modifies this
      ensures Valid() && !r.Raised?
      ensures if r.Done? then At(st, p).Idle? && Did(old(acts), acts, p, DidHas(p, r.value))
              else At(st, p) == HasWait && Silent(old(acts), acts, p) && HeldByAnother(p)
      ensures Alone(turns) ==> (r.Done? <==> old(st).holder.None?)
      ensures Alone(turns) && r.Done? ==>
        && r.value == (queue != []) && queue == old(queue)
        && st.log == old(st.log) + [DidHas(p, r.value)] && st.holder.None? && OthersStay(old(st), st, p)
    {
      ghost var was := acts;
      Others(p, turns(0), was);
      Step(p, BeginHas(p), was);
      var got := Lock(p, turns(1), was);
      if !got {
        return Waiting;
      }
      Others(p, turns(2), was);
      var answer := queue != [];
      Step(p, Read(p), was);
      Leave(p, DidHas(p, answer), turns(3), was);
      r := Done(answer);
    }

    /**
      Takes a value, or the newest one found under the lock, and puts it back.
      No timeout means waiting for a value for good.
     */
    method GetParallel(p: Pid, timeout: Option<nat>, turns: Turns) returns (r: Reply<Value>)
      requires Ready(p)
      modifies this
      ensures Valid()
      ensures match r
              case Done(v) => At(st, p).Idle? && Did(old(acts), acts, p, DidGet(p, Some(v)))
              case Raised(e) =>
                && At(st, p).Idle? && Did(old(acts), acts, p, DidGet(p, None))
                && timeout.Some? && e == if timeout == Some(0) then NotSet else TimedOut
              case Waiting =>
                && Silent(old(acts), acts, p)
                && if At(st, p).GetWait? then HeldByAnother(p) else At(st, p).GetTake? && timeout.None? && queue == []
      ensures Alone(turns) && old(st).holder.None? ==>
        && OthersStay(old(st), st, p) && st.holder.None?
        && queue == old(queue) && (r.Waiting? <==> old(queue) == [] && timeout.None?)
        && (r.Done? <==> old(queue) != []) && (r.Done? ==> queue == [r.value])
        && st.log == old(st.log) + if r.Waiting? then [] else [DidGet(p, if r.Done? then Some(r.value) else None)]
    {
      ghost var was := acts;
      EveryRunIsSafe(acts);
      var took := FirstTake(p, timeout, turns(0), turns(1), was);
      if !took {
        return Waiting;
      }
      r := Requeue(p, timeout, turns, was);
    }

    /** The locked section of a get. */
    method Requeue(p: Pid, timeout: Option<nat>, turns: Turns, ghost was: seq<Action>) returns (r: Reply<Value>)
      requires At(st, p).GetWait? && Valid() && Silent(was, acts, p) && (At(st, p).hand.None? ==> timeout.Some?)
      modifies this
      ensures Valid()
      ensures match r
              case Done(v) => At(st, p).Idle? && Did(was, acts, p, DidGet(p, Some(v)))
              case Raised(e) =>
                && At(st, p).Idle? && Did(was, acts, p, DidGet(p, None))
                && timeout.Some? && e == if timeout == Some(0) then NotSet else TimedOut
              case Waiting => At(st, p).GetWait? && Silent(was, acts, p) && HeldByAnother(p)
      ensures Alone(turns) && old(st).holder.None? && old(queue) == [] ==>
        && OthersStay(old(st), st, p) && st.holder.None?
        && var hand := old(At(st, p).hand);
           && r == (if hand.Some? then Done(hand.value) else Raised(if timeout == Some(0) then NotSet else TimedOut))
           && queue == (if hand.Some? then [hand.value] else [])
           && st.log == old(st.log) + [DidGet(p, hand)]
    {
      var got := Lock(p, turns(2), was);
      if !got {
        return Waiting;
      }
      var value, n := Flush(p, turns, was);
      Step(p, SeeEmpty(p), was);
      if value.None? {
        Leave(p, DidGet(p, None), turns(n), was);
        return Raised(if timeout == Some(0) then NotSet else TimedOut);
      }
      PutBack(p, value.value, DidGet(p, value), turns(n), turns(n + 1), was);
      r := Done(value.value);
    }

    /** The first take, without the lock; false if it waits for good. */
    method FirstTake(p: Pid, timeout: Option<nat>, before: seq<Action>, turn: seq<Action>, ghost was: seq<Action>)
      returns (took: bool)
      requires Ready(p) && Silent(was, acts, p)
      modifies this
      ensures Valid() && Silent(was, acts, p)
      ensures if took then At(st, p).GetWait? else At(st, p).GetTake? && timeout.None? && queue == []
      ensures took && At(st, p).hand.None? ==> timeout.Some? && queue == []
      ensures before == turn == [] ==>
        && OthersStay(old(st), st, p) && st.holder == old(st).holder && st.log == old(st.log)
        && (took <==> old(queue) != [] || timeout.Some?)
        && if old(queue) == [] then queue == [] && (took ==> At(st, p).hand.None?)
           else At(st, p).hand == Some(old(queue)[0]) && queue == old(queue)[1..]
    {
      Others(p, before, was);
      Step(p, BeginGet(p), was);
      Others(p, turn, was);
      took := true;
      if queue != [] {
        queue := queue[1..];
        Step(p, Take(p), was);
      } else if timeout.Some? {
        Step(p, GiveUp(p), was);
      } else {
        took := false;
      }
    }

    /** Under the lock, empties the queue and accepts newer values. */
    method Flush(p: Pid, turns: Turns, ghost was: seq<Action>) returns (value: Option<Value>, n: nat)
      requires At(st, p).GetDrain? && Holding(was, p, At(st, p))
      modifies this
      ensures Holding(was, p, GetDrain(value)) && queue == []
      ensures old(At(st, p).hand).Some? ==> value.Some?
      ensures Alone(turns) ==>
        && st.log == old(st.log) && OthersStay(old(st), st, p)
        && value == if old(queue) == [] then old(At(st, p).hand) else Some(old(queue)[|old(queue)| - 1])
    {
      value, n := st.phase[p].hand, 3;
      ghost var took := 0;
      while queue != []
        invariant Holding(was, p, GetDrain(value))
        invariant old(At(st, p).hand).Some? ==> value.Some?
        invariant Alone(turns) ==>
          && st.log == old(st.log) && OthersStay(old(st), st, p)
          && took <= |old(queue)| && queue == old(queue)[took..]
          && value == if took == 0 then old(At(st, p).hand) else Some(old(queue)[took - 1])
        decreases |queue|
      {
        value := Some(queue[0]);
        queue, took := queue[1..], took + 1;
        Step(p, Drain(p), was);
        Others(p, turns(n), was);
        n := n + 1;
      }
    }
  }

  /** The queues of the known attributes. */
  class RunAttrs {
    const queues: map<string, LockableQueue>

    constructor (queues: map<string, LockableQueue>)
      ensures this.queues == queues
    {
      this.queues := queues;
    }

    /** Sets a known attribute; an unknown one is refused. */
    method SetParallel(p: Pid, attr: string, v: Value, turns: Turns) returns (r: Reply<()>)
      requires attr in queues ==> queues[attr].Ready(p)
      modifies if attr in queues then {queues[attr]} else {}
      ensures attr !in queues ==> r == Raised(UnknownAttr)
      ensures attr in queues ==> var q := queues[attr];
        && q.Valid() && !r.Raised?
        && (if r.Done? then q.Ready(p) && Did(old(q.acts), q.acts, p, DidSet(v))
            else Silent(old(q.acts), q.acts, p) && q.HeldByAnother(p))
        && (Alone(turns) && old(q.st).holder.None? ==> r.Done? && q.queue == [v])
    {
      if attr !in queues {
        return Raised(UnknownAttr);
      }
      r := queues[attr].SetParallel(p, v, turns);
    }

    /** An unknown attribute counts as not set. */
    method HasParallel(p: Pid, attr: string, turns: Turns) returns (r: Reply<bool>)
      requires attr in queues ==> queues[attr].Ready(p)
      modifies if attr in queues then {queues[attr]} else {}
      ensures attr !in queues ==> r == Done(false)
      ensures attr in queues ==> var q := queues[attr];
        && q.Valid() && !r.Raised?
        && (if r.Done? then q.Ready(p) && Did(old(q.acts), q.acts, p, DidHas(p, r.value))
            else Silent(old(q.acts), q.acts, p) && q.HeldByAnother(p))
        && (Alone(turns) && old(q.st).holder.None? ==>
              r == Done(q.queue != []) && q.queue == old(q.queue) && q.st.holder.None?)
    {
      if attr !in queues {
        return Done(false);
      }
      r := queues[attr].HasParallel(p, turns);
    }

    method GetParallel(p: Pid, attr: string, timeout: Option<nat>, turns: Turns) returns (r: Reply<Value>)
      requires attr in queues ==> queues[attr].Ready(p)
      modifies if attr in queues then {queues[attr]} else {}
      ensures attr !in queues ==> r == Raised(UnknownAttr)
      ensures attr in queues ==> var q := queues[attr];
        && q.Valid()
        && (r.Done? ==> q.Ready(p) && Did(old(q.acts), q.acts, p, DidGet(p, Some(r.value))))
        && (r.Raised? ==> q.Ready(p) && Did(old(q.acts), q.acts, p, DidGet(p, None)) && timeout.Some?
                          && r.error == if timeout == Some(0) then NotSet else TimedOut)
        && (r.Waiting? ==> Silent(old(q.acts), q.acts, p) && (q.HeldByAnother(p) || (timeout.None? && q.queue == [])))
        && (Alone(turns) && old(q.st).holder.None? ==>
              (r.Done? <==> old(q.queue) != []) && q.queue == old(q.queue) && (r.Done? ==> q.queue == [r.value]))
    {
      if attr !in queues {
        return Raised(UnknownAttr);
      }
      r := queues[attr].GetParallel(p, timeout, turns);
    }

    /** Tests whether the attribute is set, and then, in another locked section, sets it if it was not. */
    method SetParallelDefault(p: Pid, attr: string, v: Value, turns: Turns, later: Turns) returns (r: Reply<()>)
      requires attr in queues ==> queues[attr].Ready(p)
      modifies if attr in queues then {queues[attr]} else {}
      ensures attr !in queues ==> r == Raised(UnknownAttr)
      ensures attr in queues ==> var q := queues[attr];
        && q.Valid() && !r.Raised?
        && (if r.Done? then q.Ready(p) else q.HeldByAnother(p))
        && (r.Done? ==> Did(old(q.acts), q.acts, p, DidHas(p, true)) || Defaulted(old(q.acts), q.acts, p, v))
        && (Alone(turns) && Alone(later) && old(q.st).holder.None? ==>
              r.Done? && q.queue == if old(q.queue) == [] then [v] else old(q.queue))
    {
      var has := HasParallel(p, attr, turns);
      if has.Waiting? {
        return Waiting;
      }
      if has.value {
        return Done(());
      }
      ghost var mid := if attr in queues then queues[attr].acts else [];
      r := SetParallel(p, attr, v, later);
      if attr in queues && r.Done? {
        assert Defaulted(old(queues[attr].acts), queues[attr].acts, p, v) by {
          assert Did(mid, queues[attr].acts, p, DidSet(v));
        }
      }
    }
  }

  /** From `was` to `now`, process `p` has recorded that nothing is set, and then its own set. */
  ghost predicate Defaulted(was: seq<Action>, now: seq<Action>, p: Pid, v: Value) {
    exists mid :: Did(was, mid, p, DidHas(p, false)) && Did(mid, now, p, DidSet(v))
  }

  /**
    The test of `p` is step `i` and its set is step `j`; the attribute was set
    by then exactly if a getter had a value in hand at the test, or a set took
    place in between.
   */
  ghost predicate OverwritesExactlyWhen(now: seq<Action>, p: Pid, v: Value, i: nat, j: nat) {
    && i < j < |now| && now[i].p == now[j].p == p
    && EventAt(now, i, DidHas(p, false)) && EventAt(now, j, DidSet(v))
    && (AnySet(now, j) <==> InHand(now, i) || exists k :: i < k < j && SetAt(now, k))
  }

  /** When the default of a completed call overwrote a value. */
  lemma DefaultedOverwritesExactlyWhen(was: seq<Action>, now: seq<Action>, p: Pid, v: Value)
    requires Exec(now).Some? && Defaulted(was, now, p, v)
    ensures exists i: nat, j: nat :: |was| <= i && OverwritesExactlyWhen(now, p, v, i, j)
  {
    var mid :| Did(was, mid, p, DidHas(p, false)) && Did(mid, now, p, DidSet(v));
    var i :| DidAt(was, mid, p, DidHas(p, false), i);
    var j :| DidAt(mid, now, p, DidSet(v), j);
    assert now[..i] == mid[..i];
    DefaultOverwritesExactlyWhen(now, i, j, p);
    assert OverwritesExactlyWhen(now, p, v, i, j);
  }
}
