/**
 The lock-free mutex and the counting event, as interleavings of atomic steps of any number of
 threads.  The host contract is explicit: `wait` blocks only while the word equals the expected value
 (and may return early or time out), `wake` releases every blocked thread.  An action that is not
 enabled leaves the state as it is.
 */
module Mutex {

  const LOCKED := 1
  const CONTENDED := 2

  datatype Pc =
    | Outside                // not in lock or unlock
    | Trying(v: nat)         // top of the lock loop, with the local copy of the word
    | Waiting(v: nat)        // about to call the host's wait
    | Blocked(v: nat)        // asleep in the host
    | Holder
    | Waking                 // released a contended mutex, has not called the host's wake yet

  datatype State = State(val: nat, pc: map<nat, Pc>)

  datatype Action =
    | Load(t: nat) | Attempt(t: nat) | Wait(t: nat) | EarlyReturn(t: nat) | Timeout(t: nat)
    | Release(t: nat) | Wake(t: nat)

  datatype Outcome = Ok(s: State) | Panic

  predicate IsLocked(v: nat) { v % 2 == 1 }
  predicate IsContended(v: nat) { v / 2 % 2 == 1 }

  /** One iteration of the lock loop up to the host call. */
  function TryLock(s: State, t: nat, v: nat): Outcome {
    if v > LOCKED + CONTENDED then Panic
    else if !IsLocked(v) then
      if s.val == v then Ok(State(LOCKED, s.pc[t := Holder])) else Ok(s.(pc := s.pc[t := Trying(s.val)]))
    else if !IsContended(v) then
      if s.val == v then Ok(State(LOCKED + CONTENDED, s.pc[t := Waiting(v)]))
      else Ok(s.(pc := s.pc[t := Trying(s.val)]))
    else Ok(s.(pc := s.pc[t := Waiting(v)]))
  }

  function Released(pc: map<nat, Pc>, waker: nat): map<nat, Pc> {
    map t | t in pc :: if t == waker then Outside else if pc[t].Blocked? then Trying(pc[t].v) else pc[t]
  }

  function Step(s: State, a: Action): Outcome {
    if a.t !in s.pc then Ok(s)
    else match (a, s.pc[a.t])
      case (Load(t), Outside) => Ok(s.(pc := s.pc[t := Trying(s.val)]))
      case (Attempt(t), Trying(v)) => TryLock(s, t, v)
      case (Wait(t), Waiting(v)) =>
        Ok(s.(pc := s.pc[t := if s.val == LOCKED + CONTENDED then Blocked(v) else Trying(v)]))
      case (EarlyReturn(t), Blocked(v)) => Ok(s.(pc := s.pc[t := Trying(v)]))
      case (Timeout(t), Waiting(_)) => Ok(s.(pc := s.pc[t := Outside]))
      case (Timeout(t), Blocked(_)) => Ok(s.(pc := s.pc[t := Outside]))
      case (Release(t), Holder) =>
        if s.val > LOCKED + CONTENDED || !IsLocked(s.val) then Panic
        else Ok(State(0, s.pc[t := if IsContended(s.val) then Waking else Outside]))
      case (Wake(t), Waking) => Ok(s.(pc := Released(s.pc, t)))
      case _ => Ok(s)
  }

  function Run(s: State, actions: seq<Action>): Outcome
    decreases |actions|
  {
    if actions == [] then Ok(s)
    else match Step(s, actions[0])
      case Ok(s') => Run(s', actions[1..])
      case Panic => Panic
  }

  ghost predicate Initial(s: State) {
    s.val == 0 && forall t :: t in s.pc ==> s.pc[t].Outside?
  }

  ghost predicate LocalOk(p: Pc) {
    match p
    case Trying(v) => v == 0 || v == 1 || v == 3
    case Waiting(v) => v == 1 || v == 3
    case Blocked(v) => v == 1 || v == 3
    case _ => true
  }

  ghost predicate Inv(s: State) {
    && (s.val == 0 || s.val == 1 || s.val == 3)
    && (forall t :: t in s.pc ==> LocalOk(s.pc[t]))
    && (forall t, u :: t in s.pc && u in s.pc && s.pc[t].Holder? && s.pc[u].Holder? ==> t == u)
    && (s.val != 0 <==> exists t :: t in s.pc && s.pc[t].Holder?)
    && (forall t :: t in s.pc && s.pc[t].Blocked? ==>
          s.val == 3 || exists u :: u in s.pc && s.pc[u].Waking?)
  }

  lemma StepLocal(s: State, a: Action)
    requires Inv(s)
    ensures Step(s, a).Ok?
    ensures var s' := Step(s, a).s;
            && (s'.val == 0 || s'.val == 1 || s'.val == 3)
            && (forall t :: t in s'.pc ==> LocalOk(s'.pc[t]))
  {
  }

  lemma StepHolder(s: State, a: Action)
    requires Inv(s) && Step(s, a).Ok?
    ensures var s' := Step(s, a).s;
            && (forall t, u :: t in s'.pc && u in s'.pc && s'.pc[t].Holder? && s'.pc[u].Holder? ==> t == u)
            && (s'.val != 0 <==> exists t :: t in s'.pc && s'.pc[t].Holder?)
  {
    if a.t in s.pc {
      var s' := Step(s, a).s;
      if s.val != 0 {
        var h :| h in s.pc && s.pc[h].Holder?;
        assert a != Release(h) ==> h in s'.pc && s'.pc[h].Holder?;
      } else if s'.val != 0 {
        assert s'.pc[a.t].Holder?;
      }
    }
  }

  lemma StepSleeper(s: State, a: Action, b: nat)
    requires Inv(s) && Step(s, a).Ok?
    requires var s' := Step(s, a).s; b in s'.pc && s'.pc[b].Blocked?
    ensures var s' := Step(s, a).s; s'.val == 3 || exists u :: u in s'.pc && s'.pc[u].Waking?
  {
    var s' := Step(s, a).s;
    if a.t in s.pc && !(a.Wait? && b == a.t) {
      assert b in s.pc && s.pc[b].Blocked?;
      if s.val == 3 {
        assert s'.val != 3 ==> s'.pc[a.t].Waking?;
      } else {
        var u :| u in s.pc && s.pc[u].Waking?;
        assert s'.pc[u].Waking?;
      }
    }
  }

  lemma StepKeeps(s: State, a: Action)
    requires Inv(s)
    ensures Step(s, a).Ok? && Inv(Step(s, a).s)
  {
    hide Step;
    StepLocal(s, a);
    StepHolder(s, a);
    var s' := Step(s, a).s;
    forall b | b in s'.pc && s'.pc[b].Blocked?
      ensures s'.val == 3 || exists u :: u in s'.pc && s'.pc[u].Waking?
    {
      StepSleeper(s, a, b);
    }
  }

  lemma {:induction false} RunKeeps(s: State, actions: seq<Action>)
    requires Inv(s)
    ensures Run(s, actions).Ok? && Inv(Run(s, actions).s)
    decreases |actions|
  {
    if actions != [] {
      StepKeeps(s, actions[0]);
      RunKeeps(Step(s, actions[0]).s, actions[1..]);
    }
  }

  /** In every interleaving: no check fires, the word is 0, 1 or 3, at most one thread holds the
      mutex, and a sleeper is never forgotten: the word is contended or a wake is still to come. */
  lemma MutexSafe(s: State, actions: seq<Action>)
    requires Initial(s)
    ensures Run(s, actions).Ok?
    ensures var s' := Run(s, actions).s;
            && (s'.val == 0 || s'.val == 1 || s'.val == 3)
            && (forall t, u :: t in s'.pc && u in s'.pc && s'.pc[t].Holder? && s'.pc[u].Holder? ==> t == u)
            && (forall t :: t in s'.pc && s'.pc[t].Holder? ==> s'.val != 0)
            && (forall t :: t in s'.pc && s'.pc[t].Blocked? ==>
                  s'.val == 3 || exists u :: u in s'.pc && s'.pc[u].Waking?)
  {
    RunKeeps(s, actions);
  }

  /** The host puts a thread to sleep exactly when the mutex is locked and contended.  A sleeper may return early or
      give up; neither changes the word. */
  lemma SleepsIffContended(s: State, t: nat)
    requires Inv(s) && t in s.pc
    ensures s.pc[t].Waiting? ==> Step(s, Wait(t)).Ok? && Step(s, Wait(t)).s.val == s.val
    ensures s.pc[t].Waiting? ==>
              (Step(s, Wait(t)).s.pc[t].Blocked? <==> IsLocked(s.val) && IsContended(s.val))
    ensures s.pc[t].Waiting? || s.pc[t].Blocked? ==> Step(s, Timeout(t)) == Ok(State(s.val, s.pc[t := Outside]))
    ensures s.pc[t].Blocked? ==> Step(s, EarlyReturn(t)) == Ok(State(s.val, s.pc[t := Trying(s.pc[t].v)]))
  {
  }

  // ------------------------------------------------------- the local copy is never reloaded

  /** In the lock loop with a local copy of the word that says "contended". */
  predicate Stale(s: State, t: nat) {
    t in s.pc && (s.pc[t].Trying? || s.pc[t].Waiting? || s.pc[t].Blocked?) && s.pc[t].v == 3
  }

  /** Such a thread can only leave by its deadline, whatever the others do. */
  lemma {:induction false} StaleNeverAcquires(s: State, t: nat, actions: seq<Action>)
    requires Stale(s, t) && Timeout(t) !in actions && Run(s, actions).Ok?
    ensures Stale(Run(s, actions).s, t)
    decreases |actions|
  {
    if actions != [] {
      assert actions[0] != Timeout(t);
      assert forall a :: a in actions[1..] ==> a in actions;
      StaleNeverAcquires(Step(s, actions[0]).s, t, actions[1..]);
    }
  }

  /** Every other thread in the loop still has a continuation in which it gets the mutex. */
  lemma FreshCanAcquire(s: State, t: nat)
    requires Inv(s) && t in s.pc && s.pc[t].Trying? && s.pc[t].v != 3
    ensures exists actions :: Timeout(t) !in actions && Acquires(s, actions, t)
  {
    if s.val == 0 {
      AcquireFree(s, t);
    } else {
      var h :| h in s.pc && s.pc[h].Holder?;
      var s1 := Step(s, Release(h)).s;
      assert s1.val == 0 && t in s1.pc && s1.pc[t] == s.pc[t];
      StepKeeps(s, Release(h));
      AcquireFree(s1, t);
      var acts :| Timeout(t) !in acts && Acquires(s1, acts, t);
      var all := [Release(h)] + acts;
      assert all[1..] == acts && Run(s, all) == Run(s1, acts);
      assert Timeout(t) !in all && Acquires(s, all, t);
    }
  }

  lemma AcquireFree(s: State, t: nat)
    requires Inv(s) && s.val == 0 && t in s.pc && s.pc[t].Trying? && s.pc[t].v != 3
    ensures exists actions :: Timeout(t) !in actions && Acquires(s, actions, t)
  {
    var s1 := Step(s, Attempt(t)).s;
    if s.pc[t].v == 0 {
      assert Run(s, [Attempt(t)]) == Run(s1, []) == Ok(s1);
      assert Acquires(s, [Attempt(t)], t);
      assert Timeout(t) !in [Attempt(t)];
    } else {
      assert s1.pc[t] == Trying(0);
      var s2 := Step(s1, Attempt(t)).s;
      var acts := [Attempt(t), Attempt(t)];
      assert Run(s1, acts[1..]) == Run(s2, []) == Ok(s2);
      assert Acquires(s, acts, t);
      assert Timeout(t) !in acts;
    }
  }

  /** A holder, a contender, and a third thread that reads the contended word. */
  lemma StaleReachable()
    ensures exists actions :: Run(State(0, map[0 := Outside, 1 := Outside, 2 := Outside]), actions).Ok?
              && Stale(Run(State(0, map[0 := Outside, 1 := Outside, 2 := Outside]), actions).s, 2)
  {
    var s := State(0, map[0 := Outside, 1 := Outside, 2 := Outside]);
    var acts := [Load(0), Attempt(0), Load(1), Attempt(1), Load(2)];
    var s2 := State(1, map[0 := Holder, 1 := Outside, 2 := Outside]);
    assert Run(s, acts) == Run(s2, acts[2..]) by {
      assert Step(s, Load(0)) == Ok(State(0, map[0 := Trying(0), 1 := Outside, 2 := Outside]));
      assert Step(Step(s, Load(0)).s, Attempt(0)) == Ok(s2);
      assert acts[1..][1..] == acts[2..];
    }
    var s4 := State(3, map[0 := Holder, 1 := Waiting(1), 2 := Outside]);
    assert Run(s2, acts[2..]) == Run(s4, acts[4..]) by {
      assert Step(s2, Load(1)) == Ok(State(1, map[0 := Holder, 1 := Trying(1), 2 := Outside]));
      assert Step(Step(s2, Load(1)).s, Attempt(1)) == Ok(s4);
      assert acts[2..][1..] == acts[3..] && acts[3..][1..] == acts[4..];
    }
    assert Step(s4, Load(2)) == Ok(State(3, map[0 := Holder, 1 := Waiting(1), 2 := Trying(3)]));
    assert acts[4..][1..] == [];
  }

  predicate Acquires(s: State, actions: seq<Action>, t: nat) {
    Run(s, actions).Ok? && t in Run(s, actions).s.pc && Run(s, actions).s.pc[t].Holder?
  }

  /** A thread at the top of the lock loop can ever acquire the mutex within this call if and only if
      its local copy is not "contended". */
  lemma AcquireIffNotStale(s: State, t: nat)
    requires Inv(s) && t in s.pc && s.pc[t].Trying?
    ensures (exists actions :: Timeout(t) !in actions && Acquires(s, actions, t)) <==> s.pc[t].v != 3
  {
    if s.pc[t].v != 3 {
      FreshCanAcquire(s, t);
    } else {
      forall actions | Timeout(t) !in actions && Run(s, actions).Ok?
        ensures !Acquires(s, actions, t)
      {
        StaleNeverAcquires(s, t, actions);
      }
    }
  }
}

module Event {

  const WAITERS := 0x8000_0000
  const EXPECTED := 3                 // the value lai_event_wait passes to the host

  function Count(v: nat): nat { v % WAITERS }
  predicate HasWaiters(v: nat) { v / WAITERS % 2 == 1 }

  datatype Pc =
    | Outside
    | WaitTrying(v: nat) | WaitHost(v: nat) | Blocked(v: nat)
    | Signalling(v: nat) | Waking
    | Resetting(v: nat)

  /** `signals`, `waits` and `discarded` record the history. */
  datatype State = State(val: nat, pc: map<nat, Pc>, signals: nat, waits: nat, discarded: nat)

  datatype Action =
    | StartWait(t: nat) | TryWait(t: nat) | Wait(t: nat) | EarlyReturn(t: nat) | Timeout(t: nat)
    | StartSignal(t: nat) | TrySignal(t: nat) | Wake(t: nat)
    | StartReset(t: nat) | TryReset(t: nat)

  datatype Outcome = Ok(s: State) | Overflow | Panic

  function At(s: State, t: nat, p: Pc): State { s.(pc := s.pc[t := p]) }

  function WaitStep(s: State, t: nat, v: nat): Outcome {
    if Count(v) != 0 then
      if HasWaiters(v) then Panic
      else if s.val == v then Ok(At(s, t, Outside).(val := v - 1, waits := s.waits + 1))
      else Ok(At(s, t, WaitTrying(s.val)))
    else if !HasWaiters(v) then
      if s.val == v then Ok(At(s, t, WaitHost(v)).(val := WAITERS)) else Ok(At(s, t, WaitTrying(s.val)))
    else Ok(At(s, t, WaitHost(v)))
  }

  function SignalStep(s: State, t: nat, v: nat): Outcome {
    if !HasWaiters(v) then
      if HasWaiters(v + 1) then Overflow
      else if s.val == v then Ok(At(s, t, Outside).(val := v + 1, signals := s.signals + 1))
      else Ok(At(s, t, Signalling(s.val)))
    else if Count(v) != 0 then Panic
    else if s.val == v then Ok(At(s, t, Waking).(val := 1, signals := s.signals + 1))
    else Ok(At(s, t, Signalling(s.val)))
  }

  function ResetStep(s: State, t: nat, v: nat): Outcome {
    if HasWaiters(v) then (if Count(v) != 0 then Panic else Ok(At(s, t, Outside)))
    else if Count(v) == 0 then Ok(At(s, t, Outside))
    else if s.val == v then Ok(At(s, t, Outside).(val := 0, discarded := s.discarded + v))
    else Ok(At(s, t, Resetting(s.val)))
  }

  function Released(pc: map<nat, Pc>, waker: nat): map<nat, Pc> {
    map t | t in pc :: if t == waker then Outside else if pc[t].Blocked? then WaitTrying(pc[t].v) else pc[t]
  }

  function Step(s: State, a: Action): Outcome {
    if a.t !in s.pc then Ok(s)
    else match (a, s.pc[a.t])
      case (StartWait(t), Outside) => Ok(At(s, t, WaitTrying(s.val)))
      case (TryWait(t), WaitTrying(v)) => WaitStep(s, t, v)
      case (Wait(t), WaitHost(v)) => Ok(At(s, t, if s.val == EXPECTED then Blocked(v) else WaitTrying(v)))
      case (EarlyReturn(t), Blocked(v)) => Ok(At(s, t, WaitTrying(v)))
      case (Timeout(t), WaitHost(_)) => Ok(At(s, t, Outside))
      case (Timeout(t), Blocked(_)) => Ok(At(s, t, Outside))
      case (StartSignal(t), Outside) => Ok(At(s, t, Signalling(s.val)))
      case (TrySignal(t), Signalling(v)) => SignalStep(s, t, v)
      case (Wake(t), Waking) => Ok(s.(pc := Released(s.pc, t)))
      case (StartReset(t), Outside) => Ok(At(s, t, Resetting(s.val)))
      case (TryReset(t), Resetting(v)) => ResetStep(s, t, v)
      case _ => Ok(s)
  }

  function Run(s: State, actions: seq<Action>): Outcome
    decreases |actions|
  {
    if actions == [] then Ok(s)
    else match Step(s, actions[0])
      case Ok(s') => Run(s', actions[1..])
      case o => o
  }

  ghost predicate Initial(s: State) {
    && s.val == 0 && s.signals == s.waits == s.discarded == 0
    && forall t :: t in s.pc ==> s.pc[t].Outside?
  }

  /** The waiters bit and a nonzero count never coexist. */
  predicate Legal(v: nat) { v <= WAITERS }

  ghost predicate Inv(s: State) {
    && Legal(s.val)
    && s.signals == s.waits + s.discarded + Count(s.val)
    && forall t :: t in s.pc ==>
         match s.pc[t]
         case WaitTrying(v) => Legal(v)
         case WaitHost(v) => v == 0 || v == WAITERS
         case Blocked(v) => v == 0 || v == WAITERS
         case Signalling(v) => Legal(v)
         case Resetting(v) => Legal(v)
         case _ => true
  }

  lemma WaitKeeps(s: State, t: nat)
    requires Inv(s) && t in s.pc && s.pc[t].WaitTrying?
    ensures WaitStep(s, t, s.pc[t].v).Ok? && Inv(WaitStep(s, t, s.pc[t].v).s)
  {
  }

  lemma SignalKeeps(s: State, t: nat)
    requires Inv(s) && t in s.pc && s.pc[t].Signalling?
    ensures match SignalStep(s, t, s.pc[t].v) case Ok(s') => Inv(s') case Overflow => true case Panic => false
  {
  }

  lemma ResetKeeps(s: State, t: nat)
    requires Inv(s) && t in s.pc && s.pc[t].Resetting?
    ensures ResetStep(s, t, s.pc[t].v).Ok? && Inv(ResetStep(s, t, s.pc[t].v).s)
  {
  }

  lemma StepKeeps(s: State, a: Action)
    requires Inv(s)
    ensures match Step(s, a) case Ok(s') => Inv(s') case Overflow => true case Panic => false
  {
    hide WaitStep, SignalStep, ResetStep;
    if a.t in s.pc {
      match (a, s.pc[a.t])
      case (TryWait(t), WaitTrying(_)) => WaitKeeps(s, t);
      case (TrySignal(t), Signalling(_)) => SignalKeeps(s, t);
      case (TryReset(t), Resetting(_)) => ResetKeeps(s, t);
      case _ =>
    }
  }

  /** Completed signals are waits plus counts thrown away by reset plus the current count, and no check
      but the overflow guard ever fires, in every interleaving. */
  lemma {:induction false} Conservation(s: State, actions: seq<Action>)
    requires Inv(s)
    ensures match Run(s, actions) case Ok(s') => Inv(s') case Overflow => true case Panic => false
    decreases |actions|
  {
    if actions != [] {
      StepKeeps(s, actions[0]);
      if Step(s, actions[0]).Ok? {
        Conservation(Step(s, actions[0]).s, actions[1..]);
      }
    }
  }

  lemma EventConserves(s: State, actions: seq<Action>)
    requires Initial(s) && Run(s, actions).Ok?
    ensures var s' := Run(s, actions).s;
            && s'.signals == s'.waits + s'.discarded + Count(s'.val)
            && !(HasWaiters(s'.val) && Count(s'.val) != 0)
  {
    Conservation(s, actions);
  }

  // -------------------------------------------------------------- calls that complete, observed

  /** A wait completes when its thread goes from the loop to outside by an attempt. */
  predicate WaitEnds(s: State, a: Action) {
    && a.TryWait? && a.t in s.pc && s.pc[a.t].WaitTrying?
    && Step(s, a).Ok? && a.t in Step(s, a).s.pc && Step(s, a).s.pc[a.t].Outside?
  }

  /** A signal completes when its thread goes from the loop to outside, or to the wake that is still due. */
  predicate SignalEnds(s: State, a: Action) {
    && a.TrySignal? && a.t in s.pc && s.pc[a.t].Signalling?
    && Step(s, a).Ok? && a.t in Step(s, a).s.pc && (Step(s, a).s.pc[a.t].Outside? || Step(s, a).s.pc[a.t].Waking?)
  }

  /** Completed waits and signals of a run, counted by actions and program counters only. */
  function WaitsIn(s: State, actions: seq<Action>): nat
    decreases |actions|
  {
    if actions == [] || !Step(s, actions[0]).Ok? then 0
    else (if WaitEnds(s, actions[0]) then 1 else 0) + WaitsIn(Step(s, actions[0]).s, actions[1..])
  }

  function SignalsIn(s: State, actions: seq<Action>): nat
    decreases |actions|
  {
    if actions == [] || !Step(s, actions[0]).Ok? then 0
    else (if SignalEnds(s, actions[0]) then 1 else 0) + SignalsIn(Step(s, actions[0]).s, actions[1..])
  }

  lemma StepCounts(s: State, a: Action)
    requires Step(s, a).Ok?
    ensures Step(s, a).s.waits == s.waits + if WaitEnds(s, a) then 1 else 0
    ensures Step(s, a).s.signals == s.signals + if SignalEnds(s, a) then 1 else 0
  {
  }

  lemma {:induction false} RunCounts(s: State, actions: seq<Action>)
    requires Run(s, actions).Ok?
    ensures Run(s, actions).s.waits == s.waits + WaitsIn(s, actions)
    ensures Run(s, actions).s.signals == s.signals + SignalsIn(s, actions)
    decreases |actions|
  {
    hide Step, WaitEnds, SignalEnds;
    if actions != [] {
      StepCounts(s, actions[0]);
      RunCounts(Step(s, actions[0]).s, actions[1..]);
    }
  }

  /** In every interleaving the waits that completed, the counts that resets discarded and the count that is left
      are the signals that completed; so waits never outnumber signals. */
  lemma WaitsAreSignalled(s: State, actions: seq<Action>)
    requires Initial(s) && Run(s, actions).Ok?
    ensures var s' := Run(s, actions).s;
            && WaitsIn(s, actions) + s'.discarded + Count(s'.val) == SignalsIn(s, actions)
            && WaitsIn(s, actions) <= SignalsIn(s, actions)
  {
    RunCounts(s, actions);
    Conservation(s, actions);
  }

  // ------------------------------------------------------------------------------------- resets

  /** A reset returns when its thread goes from the loop to outside. */
  predicate ResetEnds(s: State, a: Action) {
    && a.TryReset? && a.t in s.pc && s.pc[a.t].Resetting?
    && Step(s, a).Ok? && a.t in Step(s, a).s.pc && Step(s, a).s.pc[a.t].Outside?
  }

  /** The run has the thread in the loop of a reset. */
  predicate InReset(o: Outcome, t: nat) { o.Ok? && t in o.s.pc && o.s.pc[t].Resetting? }

  /** The copy that a reset works on is what the word was at its last atomic step: after the first `k` actions,
      from which on the thread was in that reset. */
  lemma {:induction false} ResetSaw(s: State, actions: seq<Action>, t: nat) returns (k: nat)
    requires Initial(s) && Run(s, actions).Ok? && t in Run(s, actions).s.pc && Run(s, actions).s.pc[t].Resetting?
    ensures 0 < k <= |actions| && actions[k - 1].t == t && Run(s, actions[..k]).Ok?
    ensures Run(s, actions[..k]).s.val == Run(s, actions).s.pc[t].v
    ensures forall m :: k <= m <= |actions| ==> InReset(Run(s, actions[..m]), t)
    decreases |actions|
  {
    if actions == [] {
      assert false;
    }
    var n := |actions| - 1;
    var front, last := actions[..n], actions[n];
    assert actions == front + [last];
    RunSnoc(s, front, last);
    var before, after := Run(s, front).s, Run(s, actions).s;
    if t in before.pc && before.pc[t] == after.pc[t] && !(last.t == t && last.TryReset?) {
      k := ResetSaw(s, front, t);
      assert actions[..n + 1] == actions;
      forall m | k <= m <= n ensures actions[..m] == front[..m] && InReset(Run(s, front[..m]), t) {
      }
    } else {
      ResetStepReads(before, last, t);
      k := n + 1;
      assert actions[..k] == actions;
    }
  }

  lemma ResetStepReads(s: State, a: Action, t: nat)
    requires Step(s, a).Ok? && t in Step(s, a).s.pc && Step(s, a).s.pc[t].Resetting?
    requires !(t in s.pc && s.pc[t] == Step(s, a).s.pc[t] && !(a.t == t && a.TryReset?))
    ensures a.t == t && Step(s, a).s.val == Step(s, a).s.pc[t].v
  {
  }

  lemma {:induction false} RunSnoc(s: State, front: seq<Action>, last: Action)
    requires Run(s, front + [last]).Ok?
    ensures Run(s, front).Ok? && Step(Run(s, front).s, last) == Run(s, front + [last])
    decreases |front|
  {
    hide Step;
    if front == [] {
      assert front + [last] == [last] && [last][1..] == [];
      assert Run(s, [last]) == Run(Step(s, last).s, []);
    } else {
      assert (front + [last])[0] == front[0] && (front + [last])[1..] == front[1..] + [last];
      RunSnoc(Step(s, front[0]).s, front[1..], last);
    }
  }

  /** When a reset returns, the count was zero at its last atomic step: either the exchange that it made left none,
      and it discarded what was there, or its copy, read then, has none. */
  lemma ResetEmpties(s: State, a: Action)
    requires Inv(s) && ResetEnds(s, a)
    ensures var s' := Step(s, a).s; var v := s.pc[a.t].v;
            || (Count(v) == 0 && s'.val == s.val && s'.discarded == s.discarded)
            || (s.val == v && s'.val == 0 && s'.discarded == s.discarded + Count(v))
  {
  }

  /** Over a run: when a reset returns, the event had no count after action `k`, one of that same reset. */
  lemma ResetReturns(s: State, actions: seq<Action>, t: nat) returns (k: nat)
    requires Initial(s) && Run(s, actions).Ok? && ResetEnds(Run(s, actions).s, TryReset(t))
    ensures var all := actions + [TryReset(t)];
            && 0 < k <= |all| && all[k - 1].t == t && Run(s, all[..k]).Ok? && Count(Run(s, all[..k]).s.val) == 0
            && forall m :: k <= m <= |actions| ==> InReset(Run(s, all[..m]), t)
  {
    hide Step, Count;
    CountZero();
    Conservation(s, actions);
    var s1, all := Run(s, actions).s, actions + [TryReset(t)];
    ResetEmpties(s1, TryReset(t));
    RunAppend(s, actions, TryReset(t));
    if Count(s1.pc[t].v) == 0 {
      k := ResetSaw(s, actions, t);
      forall m | k <= m <= |actions| ensures all[..m] == actions[..m] && InReset(Run(s, actions[..m]), t) {
      }
    } else {
      k := |all|;
      assert all[..k] == all;
    }
  }

  lemma CountZero()
    ensures Count(0) == 0
  {
  }

  lemma {:induction false} RunAppend(s: State, front: seq<Action>, last: Action)
    requires Run(s, front).Ok?
    ensures Run(s, front + [last]) == Step(Run(s, front).s, last)
    decreases |front|
  {
    hide Step;
    if front == [] {
      assert front + [last] == [last] && [last][1..] == [];
      assert Step(s, last).Ok? ==> Run(s, [last]) == Run(Step(s, last).s, []);
    } else {
      assert (front + [last])[0] == front[0] && (front + [last])[1..] == front[1..] + [last];
      RunAppend(Step(s, front[0]).s, front[1..], last);
    }
  }

  // --------------------------------------------------------- the host is given the wrong value

  /** The wake of a signal leaves no thread asleep: every sleeper is back in its wait loop, with its old copy, and
      the word and all others are as they were. */
  lemma WakeReleases(s: State, t: nat)
    requires t in s.pc && s.pc[t].Waking?
    ensures var o := Step(s, Wake(t));
            && o.Ok? && o.s.pc.Keys == s.pc.Keys && o.s == s.(pc := o.s.pc) && o.s.pc[t].Outside?
            && (forall u :: u in s.pc && u != t && s.pc[u].Blocked? ==> o.s.pc[u] == WaitTrying(s.pc[u].v))
            && (forall u :: u in s.pc && u != t && !s.pc[u].Blocked? ==> o.s.pc[u] == s.pc[u])
  {
  }

  /** A waiter reaches the host only with the waiters bit set or read, and the bit goes only by a signal that will
      wake; so the first signal after an announcement wakes. */
  lemma AnnouncedIsWoken(s: State, a: Action)
    requires Step(s, a).Ok?
    ensures var s' := Step(s, a).s;
            && (a.TryWait? && a.t in s.pc && s.pc[a.t].WaitTrying? && s'.pc[a.t].WaitHost? ==>
                  s'.val == WAITERS || HasWaiters(s.pc[a.t].v))
            && (s.val == WAITERS && s'.val != WAITERS ==>
                  a.TrySignal? && s.pc[a.t].Signalling? && s'.pc[a.t].Waking? && Count(s'.val) == 1)
  {
  }

  predicate Asleep(o: Outcome, u: nat) { o.Ok? && u in o.s.pc && o.s.pc[u].Blocked? }

  lemma {:induction false} WakerReleases(s: State, actions: seq<Action>, t: nat, u: nat) returns (k: nat)
    requires t in s.pc && s.pc[t].Waking? && u in s.pc && Run(s, actions).Ok?
    requires t in Run(s, actions).s.pc && !Run(s, actions).s.pc[t].Waking?
    ensures k <= |actions| && Run(s, actions[..k]).Ok? && !Asleep(Run(s, actions[..k]), u)
    decreases |actions|
  {
    hide Step;
    k := 0;
    if s.pc[u].Blocked? {
      var s1 := Step(s, actions[0]).s;
      if actions[0] == Wake(t) {
        WakeReleases(s, t);
        k := 1;
        assert actions[..1][1..] == [] && Run(s, actions[..1]) == Run(s1, []);
      } else {
        WakingStays(s, actions[0], t, u);
        var j := WakerReleases(s1, actions[1..], t, u);
        k := j + 1;
        assert actions[..k][1..] == actions[1..][..j];
      }
    }
  }

  lemma WakingStays(s: State, a: Action, t: nat, u: nat)
    requires t in s.pc && s.pc[t].Waking? && u in s.pc && a != Wake(t) && Step(s, a).Ok?
    ensures t in Step(s, a).s.pc && Step(s, a).s.pc[t].Waking? && u in Step(s, a).s.pc
  {
  }

  /** A signal that finds the waiters bit returns only after every thread that slept then has been woken. */
  lemma SignalWakes(s: State, rest: seq<Action>, t: nat, u: nat) returns (k: nat)
    requires t in s.pc && s.pc[t] == Signalling(WAITERS) && s.val == WAITERS && u in s.pc && s.pc[u].Blocked?
    requires var o := Run(s, [TrySignal(t)] + rest); o.Ok? && t in o.s.pc && o.s.pc[t].Outside?
    ensures var all := [TrySignal(t)] + rest;
            0 < k <= |all| && Run(s, all[..k]).Ok? && !Asleep(Run(s, all[..k]), u)
  {
    var all := [TrySignal(t)] + rest;
    var s1 := Step(s, TrySignal(t)).s;
    assert s1.pc[t].Waking? && all[1..] == rest;
    hide Step;
    var j := WakerReleases(s1, rest, t, u);
    k := j + 1;
    assert all[..k][1..] == rest[..j];
  }

  /** Since the expected value passed to the host is 3, a waiter never sleeps while the waiters bit it
      set is there, and does sleep exactly when three counts are available. */
  lemma SleepsIffThreeCounts(s: State, t: nat)
    requires Inv(s) && t in s.pc && s.pc[t].WaitHost?
    ensures Step(s, Wait(t)).Ok?
    ensures Step(s, Wait(t)).s.pc[t].Blocked? <==> !HasWaiters(s.val) && Count(s.val) == 3
  {
  }

  function Three(p: Pc, val: nat, q: Pc, signals: nat): State {
    State(val, map[0 := p, 1 := q], signals, 0, 0)
  }

  /** Three signals can slip in before a waiter reaches the host: it sleeps with three counts
      available and no wake on its way. */
  lemma SleepsDespiteSignals()
    ensures exists actions :: exists s': State ::
              && Run(Three(Outside, 0, Outside, 0), actions) == Ok(s')
              && s'.pc == map[0 := Blocked(0), 1 := Outside] && Count(s'.val) == 3
  {
    hide Step;
    Announce();
    FirstSignal();
    FirstWake();
    LaterSignals();
    var acts := [StartWait(0), TryWait(0), StartSignal(1), TrySignal(1), Wake(1), StartSignal(1), TrySignal(1),
                 StartSignal(1), TrySignal(1), Wait(0)];
    var p := WaitHost(0);
    var states := [Three(Outside, 0, Outside, 0), Three(WaitTrying(0), 0, Outside, 0), Three(p, WAITERS, Outside, 0),
                   Three(p, WAITERS, Signalling(WAITERS), 0), Three(p, 1, Waking, 1), Three(p, 1, Outside, 1),
                   Three(p, 1, Signalling(1), 1), Three(p, 2, Outside, 2), Three(p, 2, Signalling(2), 2),
                   Three(p, 3, Outside, 3), Three(Blocked(0), 3, Outside, 3)];
    Chain(states, acts, 0);
    assert acts[0..] == acts;
  }

  lemma Announce()
    ensures Step(Three(Outside, 0, Outside, 0), StartWait(0)) == Ok(Three(WaitTrying(0), 0, Outside, 0))
    ensures Step(Three(WaitTrying(0), 0, Outside, 0), TryWait(0)) == Ok(Three(WaitHost(0), WAITERS, Outside, 0))
  {
  }

  lemma FirstSignal()
    ensures Step(Three(WaitHost(0), WAITERS, Outside, 0), StartSignal(1))
            == Ok(Three(WaitHost(0), WAITERS, Signalling(WAITERS), 0))
    ensures Step(Three(WaitHost(0), WAITERS, Signalling(WAITERS), 0), TrySignal(1))
            == Ok(Three(WaitHost(0), 1, Waking, 1))
  {
  }

  lemma FirstWake()
    ensures Step(Three(WaitHost(0), 1, Waking, 1), Wake(1)) == Ok(Three(WaitHost(0), 1, Outside, 1))
  {
    assert Released(map[0 := WaitHost(0), 1 := Waking], 1) == map[0 := WaitHost(0), 1 := Outside];
  }

  lemma LaterSignals()
    ensures forall n: nat :: 0 < n < 3 ==>
              && Step(Three(WaitHost(0), n, Outside, n), StartSignal(1)) == Ok(Three(WaitHost(0), n, Signalling(n), n))
              && Step(Three(WaitHost(0), n, Signalling(n), n), TrySignal(1))
                 == Ok(Three(WaitHost(0), n + 1, Outside, n + 1))
    ensures Step(Three(WaitHost(0), 3, Outside, 3), Wait(0)) == Ok(Three(Blocked(0), 3, Outside, 3))
  {
  }

  lemma {:induction false} Chain(states: seq<State>, acts: seq<Action>, k: nat)
    requires k <= |acts| && |states| == |acts| + 1
    requires forall j :: 0 <= j < |acts| ==> Step(states[j], acts[j]) == Ok(states[j + 1])
    ensures Run(states[k], acts[k..]) == Ok(states[|acts|])
    decreases |acts| - k
  {
    if k < |acts| {
      Chain(states, acts, k + 1);
      assert acts[k..][1..] == acts[k + 1..];
    }
  }

  // ------------------------------------------------------- the local copy is never reloaded

  predicate Stale(s: State, t: nat) {
    t in s.pc && (s.pc[t].WaitTrying? || s.pc[t].WaitHost? || s.pc[t].Blocked?) && s.pc[t].v == WAITERS
  }

  /** A waiter that once read the waiters bit never completes its wait, however often the event is
      signalled; it can only leave by its deadline. */
  lemma {:induction false} StaleNeverCompletes(s: State, t: nat, actions: seq<Action>)
    requires Stale(s, t) && Timeout(t) !in actions && Run(s, actions).Ok?
    ensures Stale(Run(s, actions).s, t)
    decreases |actions|
  {
    if actions != [] {
      assert actions[0] != Timeout(t);
      assert forall a :: a in actions[1..] ==> a in actions;
      StaleNeverCompletes(Step(s, actions[0]).s, t, actions[1..]);
    }
  }

  /** A first waiter sets the bit, a second one reads it. */
  lemma StaleReachable()
    ensures exists actions :: Run(Three(Outside, 0, Outside, 0), actions).Ok?
              && Stale(Run(Three(Outside, 0, Outside, 0), actions).s, 1)
  {
    var acts := [StartWait(0), TryWait(0), StartWait(1)];
    var states := [Three(Outside, 0, Outside, 0), Three(WaitTrying(0), 0, Outside, 0),
                   Three(WaitHost(0), WAITERS, Outside, 0), Three(WaitHost(0), WAITERS, WaitTrying(WAITERS), 0)];
    Announce();
    assert Step(states[2], StartWait(1)) == Ok(states[3]);
    hide Step;
    Chain(states, acts, 0);
    assert acts[0..] == acts;
  }

  // ---------------------------------------------------------- when a waiter can complete at all

  /** The call of `t` returns without a timeout: from a wait, that is the only way to get outside. */
  predicate Completes(s: State, actions: seq<Action>, t: nat) {
    Timeout(t) !in actions && Run(s, actions).Ok? && t in Run(s, actions).s.pc && Run(s, actions).s.pc[t].Outside?
  }

  ghost predicate CanComplete(s: State, t: nat) {
    exists actions :: Completes(s, actions, t)
  }

  /** A thread that can still leave its call and signal: any but one about to fail the overflow guard. */
  predicate Helper(s: State, u: nat) {
    u in s.pc && s.pc[u] != Signalling(WAITERS - 1)
  }

  lemma Prepend(s: State, a: Action, t: nat)
    requires a != Timeout(t) && Step(s, a).Ok? && CanComplete(Step(s, a).s, t)
    ensures CanComplete(s, t)
  {
    var acts :| Completes(Step(s, a).s, acts, t);
    var all := [a] + acts;
    assert all[1..] == acts && Run(s, all) == Run(Step(s, a).s, acts);
    assert Completes(s, all, t);
  }

  lemma AlreadyOut(s: State, t: nat)
    requires t in s.pc && s.pc[t].Outside?
    ensures CanComplete(s, t)
  {
    assert Run(s, []) == Ok(s);
    assert Completes(s, [], t);
  }

  lemma CountHelps(s: State, t: nat)
    requires Inv(s) && t in s.pc && s.pc[t].WaitTrying? && s.pc[t].v != WAITERS && Count(s.val) > 0
    ensures CanComplete(s, t)
  {
    var s1 := Step(s, TryWait(t)).s;
    if s.pc[t].v == s.val {
      AlreadyOut(s1, t);
    } else {
      assert s1 == At(s, t, WaitTrying(s.val));
      AlreadyOut(Step(s1, TryWait(t)).s, t);
      Prepend(s1, TryWait(t), t);
    }
    Prepend(s, TryWait(t), t);
  }

  /** `t` waits with a usable copy of an empty word, and `u` is another thread. */
  ghost predicate Stuck(s: State, t: nat, u: nat) {
    && Inv(s) && t in s.pc && s.pc[t].WaitTrying? && s.pc[t].v != WAITERS
    && Count(s.val) == 0 && u != t && Helper(s, u)
  }

  lemma SignallerHelps(s: State, t: nat, u: nat)
    requires Stuck(s, t, u) && s.pc[u].Signalling?
    ensures CanComplete(s, t)
  {
    SignalKeeps(s, u);
    var s1 := Step(s, TrySignal(u)).s;
    if s.pc[u].v == s.val {
      CountHelps(s1, t);
    } else {
      SignalKeeps(s1, u);
      CountHelps(Step(s1, TrySignal(u)).s, t);
      Prepend(s1, TrySignal(u), t);
    }
    Prepend(s, TrySignal(u), t);
  }

  lemma OutsiderHelps(s: State, t: nat, u: nat)
    requires Stuck(s, t, u) && s.pc[u].Outside?
    ensures CanComplete(s, t)
  {
    SignallerHelps(Step(s, StartSignal(u)).s, t, u);
    Prepend(s, StartSignal(u), t);
  }

  lemma SleeperHelps(s: State, t: nat, u: nat)
    requires Stuck(s, t, u) && (s.pc[u].WaitHost? || s.pc[u].Blocked?)
    ensures CanComplete(s, t)
  {
    OutsiderHelps(Step(s, Timeout(u)).s, t, u);
    Prepend(s, Timeout(u), t);
  }

  lemma WaiterHelps(s: State, t: nat, u: nat)
    requires Stuck(s, t, u) && s.pc[u].WaitTrying?
    ensures CanComplete(s, t)
  {
    WaitKeeps(s, u);
    var s1 := Step(s, TryWait(u)).s;
    if s1.pc[u].WaitHost? {
      SleeperHelps(s1, t, u);
    } else {
      WaitKeeps(s1, u);
      SleeperHelps(Step(s1, TryWait(u)).s, t, u);
      Prepend(s1, TryWait(u), t);
    }
    Prepend(s, TryWait(u), t);
  }

  lemma WakerHelps(s: State, t: nat, u: nat)
    requires Stuck(s, t, u) && s.pc[u].Waking?
    ensures CanComplete(s, t)
  {
    OutsiderHelps(Step(s, Wake(u)).s, t, u);
    Prepend(s, Wake(u), t);
  }

  lemma ResetterHelps(s: State, t: nat, u: nat)
    requires Stuck(s, t, u) && s.pc[u].Resetting?
    ensures CanComplete(s, t)
  {
    ResetKeeps(s, u);
    var s1 := Step(s, TryReset(u)).s;
    if s1.pc[u].Outside? {
      OutsiderHelps(s1, t, u);
    } else {
      ResetKeeps(s1, u);
      OutsiderHelps(Step(s1, TryReset(u)).s, t, u);
      Prepend(s1, TryReset(u), t);
    }
    Prepend(s, TryReset(u), t);
  }

  lemma HelperHelps(s: State, t: nat, u: nat)
    requires Stuck(s, t, u)
    ensures CanComplete(s, t)
  {
    hide CanComplete, Inv;
    match s.pc[u]
    case Outside => OutsiderHelps(s, t, u);
    case WaitTrying(_) => WaiterHelps(s, t, u);
    case WaitHost(_) => SleeperHelps(s, t, u);
    case Blocked(_) => SleeperHelps(s, t, u);
    case Signalling(_) => SignallerHelps(s, t, u);
    case Waking => WakerHelps(s, t, u);
    case Resetting(_) => ResetterHelps(s, t, u);
  }

  /** No count, and every other thread would fail the overflow guard. */
  predicate Alone(s: State, t: nat) {
    && t in s.pc && (s.pc[t].WaitTrying? || s.pc[t].WaitHost? || s.pc[t].Blocked?)
    && Count(s.val) == 0 && s.val <= WAITERS && forall u :: u in s.pc && u != t ==> !Helper(s, u)
  }

  lemma {:induction false} AloneNeverCompletes(s: State, t: nat, actions: seq<Action>)
    requires Inv(s) && Alone(s, t) && Timeout(t) !in actions && Run(s, actions).Ok?
    ensures Alone(Run(s, actions).s, t)
    decreases |actions|
  {
    if actions != [] {
      assert actions[0] != Timeout(t);
      assert forall a :: a in actions[1..] ==> a in actions;
      StepKeeps(s, actions[0]);
      AloneSteps(s, t, actions[0]);
      AloneNeverCompletes(Step(s, actions[0]).s, t, actions[1..]);
    }
  }

  lemma AloneSteps(s: State, t: nat, a: Action)
    requires Inv(s) && Alone(s, t) && a != Timeout(t) && Step(s, a).Ok?
    ensures Alone(Step(s, a).s, t)
  {
  }

  /** A waiter at the top of its loop can ever complete within this call if and only if its local copy is
      not the waiters bit and either a count is there or another thread can still come to signal. */
  lemma CompletesIff(s: State, t: nat)
    requires Inv(s) && t in s.pc && s.pc[t].WaitTrying?
    ensures CanComplete(s, t) <==>
            s.pc[t].v != WAITERS && (Count(s.val) > 0 || exists u :: u != t && Helper(s, u))
  {
    if s.pc[t].v == WAITERS {
      forall actions | Timeout(t) !in actions && Run(s, actions).Ok? ensures !Completes(s, actions, t) {
        StaleNeverCompletes(s, t, actions);
      }
    } else if Count(s.val) > 0 {
      CountHelps(s, t);
    } else if u :| u != t && Helper(s, u) {
      HelperHelps(s, t, u);
    } else {
      forall actions | Timeout(t) !in actions && Run(s, actions).Ok? ensures !Completes(s, actions, t) {
        AloneNeverCompletes(s, t, actions);
      }
    }
  }
}
