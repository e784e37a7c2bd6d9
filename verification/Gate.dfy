/** The suspend / resume / wait protocol of Cthread: a counter under a mutex with a condition
variable, as interleaved steps of any number of threads. The condition variable may wake a
thread without a signal, as POSIX.1-2017 allows (System Interfaces, section 3,
pthread_cond_wait). The thread object is taken to be started. */
module Gate {
  import opened Options

  type Tid = nat

  /** Where a thread stands in the call it is making. */
  datatype Pc =
    | Outside
      // wait
    | WantTest      // before the lock
    | Testing       // at the loop condition, holding the lock
    | Parked        // inside the wait on the condition variable
    | Woken         // out of it, but without the lock yet
    | Leaving       // past the loop, holding the lock
      // suspend, or start with waiting == 1
    | WantDecrement(starting: bool)
    | Decrementing(starting: bool)
    | Decremented
      // resume
    | WantIncrement
    | Incrementing
    | Signalling    // the counter is up, the signal not yet given
    | Signalled

  datatype State = State(flag: int, owner: Option<Tid>, pcs: map<Tid, Pc>,
                         resumes: nat, suspends: nat, starts: nat)

  /** The calls, and the atomic steps inside them. */
  datatype Action =
    | CallWait(t: Tid) | CallSuspend(t: Tid) | CallStart(t: Tid) | CallResume(t: Tid)
    | Lock(t: Tid) | Test(t: Tid) | Spurious(t: Tid) | Decrement(t: Tid) | Increment(t: Tid)
    | Signal(t: Tid, woken: set<Tid>) | Unlock(t: Tid)

  predicate HoldsLock(pc: Pc) {
    || pc.Testing? || pc.Leaving? || pc.Decrementing? || pc.Decremented?
    || pc.Incrementing? || pc.Signalling? || pc.Signalled?
  }

  predicate InWait(pc: Pc) {
    pc.WantTest? || pc.Testing? || pc.Parked? || pc.Woken? || pc.Leaving?
  }

  predicate WantsLock(pc: Pc) {
    pc.WantTest? || pc.Woken? || pc.WantDecrement? || pc.WantIncrement?
  }

  function Locked(pc: Pc): Pc
    requires WantsLock(pc)
  {
    match pc
    case WantDecrement(starting) => Decrementing(starting)
    case WantIncrement => Incrementing
    case _ => Testing
  }

  function ParkedThreads(s: State): set<Tid> {
    set t | t in s.pcs && s.pcs[t].Parked?
  }

  predicate Enabled(s: State, a: Action) {
    && a.t in s.pcs
    && var pc := s.pcs[a.t];
       match a
       case CallWait(_) => pc.Outside?
       case CallSuspend(_) => pc.Outside?
       case CallStart(_) => pc.Outside?
       case CallResume(_) => pc.Outside?
       case Lock(_) => WantsLock(pc) && s.owner == None
       case Test(_) => pc.Testing?
       case Spurious(_) => pc.Parked?
       case Decrement(_) => pc.Decrementing?
       case Increment(_) => pc.Incrementing?
       case Signal(_, woken) =>
         pc.Signalling? && woken <= ParkedThreads(s) && (ParkedThreads(s) != {} ==> woken != {})
       case Unlock(_) => pc.Leaving? || pc.Decremented? || pc.Signalled?
  }

  function Do(s: State, a: Action): State
    requires a.t in s.pcs && (a.Lock? ==> WantsLock(s.pcs[a.t])) && (a.Decrement? ==> s.pcs[a.t].Decrementing?)
  {
    match a
    case CallWait(t) => s.(pcs := s.pcs[t := WantTest])
    case CallSuspend(t) => s.(pcs := s.pcs[t := WantDecrement(false)])
    case CallStart(t) => s.(pcs := s.pcs[t := WantDecrement(true)])
    case CallResume(t) => s.(pcs := s.pcs[t := WantIncrement])
    case Lock(t) => s.(owner := Some(t), pcs := s.pcs[t := Locked(s.pcs[t])])
    case Test(t) =>
      if s.flag < 0 then s.(owner := None, pcs := s.pcs[t := Parked]) else s.(pcs := s.pcs[t := Leaving])
    case Spurious(t) => s.(pcs := s.pcs[t := Woken])
    case Decrement(t) =>
      if s.pcs[t].starting
      then s.(flag := s.flag - 1, starts := s.starts + 1, pcs := s.pcs[t := Decremented])
      else s.(flag := s.flag - 1, suspends := s.suspends + 1, pcs := s.pcs[t := Decremented])
    case Increment(t) => s.(flag := s.flag + 1, resumes := s.resumes + 1, pcs := s.pcs[t := Signalling])
    case Signal(t, woken) =>
      s.(pcs := map u | u in s.pcs :: if u == t then Signalled else if u in woken then Woken else s.pcs[u])
    case Unlock(t) => s.(owner := None, pcs := s.pcs[t := Outside])
  }

  function Initial(threads: set<Tid>): (s: State)
    ensures s.pcs.Keys == threads && forall t :: t in threads ==> s.pcs[t].Outside?
    ensures s.flag == 0 && s.owner == None
  {
    State(0, None, map t | t in threads :: Outside, 0, 0, 0)
  }

  // ---- what every step keeps ----

  /** The lock is held by exactly the thread that is in a locked section, the counter is the
  balance of the calls, and a thread that is on its way out of wait sees it non-negative. */
  ghost predicate Inv(s: State) {
    && (forall t :: t in s.pcs ==> (HoldsLock(s.pcs[t]) <==> s.owner == Some(t)))
    && (s.owner != None ==> s.owner.value in s.pcs)
    && s.flag == s.resumes - s.suspends - s.starts
    && (forall t :: t in s.pcs && s.pcs[t].Leaving? ==> s.flag >= 0)
  }

  ghost predicate SomeoneSignalling(s: State) {
    exists t :: t in s.pcs && s.pcs[t].Signalling?
  }

  /** No wakeup is lost: whoever is parked has a reason, or a signal is about to be given. */
  ghost predicate NoLostWakeup(s: State) {
    forall t :: t in s.pcs && s.pcs[t].Parked? ==> s.flag < 0 || SomeoneSignalling(s)
  }

  ghost predicate OneWaiter(s: State) {
    forall t, u :: t in s.pcs && u in s.pcs && InWait(s.pcs[t]) && InWait(s.pcs[u]) ==> t == u
  }

  lemma StepKeepsInv(s: State, a: Action)
    requires Inv(s) && Enabled(s, a)
    ensures Inv(Do(s, a))
  {
  }

  /** Only a signal can lose a wakeup. */
  lemma OtherStepsLoseNothing(s: State, a: Action)
    requires Inv(s) && NoLostWakeup(s) && Enabled(s, a) && !a.Signal?
    ensures NoLostWakeup(Do(s, a))
  {
    var s1 := Do(s, a);
    if SomeoneSignalling(s) {
      var t :| t in s.pcs && s.pcs[t].Signalling?;
      assert s1.pcs[t].Signalling?;
    } else if a.Increment? {
      assert s1.pcs[a.t].Signalling?;
    }
  }

  /** A signal loses none exactly if it wakes every parked thread, or the counter is negative. */
  lemma SignalReaches(s: State, t: Tid, woken: set<Tid>)
    requires Inv(s) && Enabled(s, Signal(t, woken))
    ensures NoLostWakeup(Do(s, Signal(t, woken))) <==> s.flag < 0 || woken == ParkedThreads(s)
  {
    var s1 := Do(s, Signal(t, woken));
    assert !SomeoneSignalling(s1);
    assert forall u :: u in s.pcs && s1.pcs[u].Parked? <==> u in ParkedThreads(s) - woken;
    if s.flag >= 0 && woken != ParkedThreads(s) {
      var u :| u in ParkedThreads(s) - woken;
      assert s1.pcs[u].Parked?;
    }
  }

  /** The guarantee: whichever parked threads a signal wakes, it loses no wakeup, if and only
  if the counter is negative or at most one thread is parked. */
  lemma SignalIsSafeIff(s: State, t: Tid)
    requires Inv(s) && t in s.pcs && s.pcs[t].Signalling?
    ensures (forall woken :: Enabled(s, Signal(t, woken)) ==> NoLostWakeup(Do(s, Signal(t, woken))))
       <==> FewParked(s)
  {
    if FewParked(s) {
      forall woken | Enabled(s, Signal(t, woken))
        ensures NoLostWakeup(Do(s, Signal(t, woken)))
      {
        SignalReaches(s, t, woken);
        if s.flag >= 0 && ParkedThreads(s) != {} {
          SubsetOfOne(woken, ParkedThreads(s));
        }
      }
    } else {
      var u :| u in ParkedThreads(s);
      assert ParkedThreads(s) != {u};
      assert Enabled(s, Signal(t, {u}));
      SignalReaches(s, t, {u});
    }
  }

  ghost predicate FewParked(s: State) {
    s.flag < 0 || |ParkedThreads(s)| <= 1
  }

  lemma SubsetOfOne(a: set<Tid>, b: set<Tid>)
    requires a <= b && a != {} && |b| <= 1
    ensures a == b
  {
    var x :| x in a;
    assert |b - {x}| == 0;
  }

  // ---- runs ----

  ghost predicate Runs(s: State, actions: seq<Action>)
    decreases |actions|
  {
    actions != [] ==> Enabled(s, actions[0]) && Runs(Do(s, actions[0]), actions[1..])
  }

  ghost function After(s: State, actions: seq<Action>): State
    requires Runs(s, actions)
    decreases |actions|
  {
    if actions == [] then s else After(Do(s, actions[0]), actions[1..])
  }

  lemma {:induction false} RunKeepsInv(s: State, actions: seq<Action>)
    requires Inv(s) && Runs(s, actions)
    ensures Inv(After(s, actions))
    decreases |actions|
  {
    if actions != [] {
      StepKeepsInv(s, actions[0]);
      RunKeepsInv(Do(s, actions[0]), actions[1..]);
    }
  }

  // ---- lost wakeups in runs ----

  /** No wakeup is lost at any point of the run. */
  ghost predicate NeverLost(s: State, actions: seq<Action>)
    requires Runs(s, actions)
    decreases |actions|
  {
    NoLostWakeup(s) && (actions != [] ==> NeverLost(Do(s, actions[0]), actions[1..]))
  }

  /** Every signal of the run that finds the counter at 0 or above wakes all parked threads. */
  ghost predicate SignalsReachAll(s: State, actions: seq<Action>)
    requires Runs(s, actions)
    decreases |actions|
  {
    actions != [] ==>
      && (actions[0].Signal? ==> s.flag < 0 || actions[0].woken == ParkedThreads(s))
      && SignalsReachAll(Do(s, actions[0]), actions[1..])
  }

  /** At most one thread is parked whenever a resume has brought the counter to 0 or above
  and is about to signal. */
  ghost predicate FewParkedAtSignals(s: State, actions: seq<Action>)
    requires Runs(s, actions)
    decreases |actions|
  {
    actions != [] ==>
      && (actions[0].Signal? ==> FewParked(s))
      && FewParkedAtSignals(Do(s, actions[0]), actions[1..])
  }

  /** Whichever parked threads the signals of the run had woken instead, none would have
  lost a wakeup. */
  ghost predicate SignalsAreSafe(s: State, actions: seq<Action>)
    requires Runs(s, actions)
    decreases |actions|
  {
    actions != [] ==>
      && (actions[0].Signal? ==>
            var t := actions[0].t;
            forall woken :: Enabled(s, Signal(t, woken)) ==> NoLostWakeup(Do(s, Signal(t, woken))))
      && SignalsAreSafe(Do(s, actions[0]), actions[1..])
  }

  /** For a given run, in every interleaving of any number of threads: it loses no wakeup if
  and only if each of its signals at a counter of 0 or above reaches all parked threads. */
  lemma {:induction false} NeverLostIff(s: State, actions: seq<Action>)
    requires Inv(s) && NoLostWakeup(s) && Runs(s, actions)
    ensures NeverLost(s, actions) <==> SignalsReachAll(s, actions)
    decreases |actions|
  {
    if actions != [] {
      var a, s1 := actions[0], Do(s, actions[0]);
      StepKeepsInv(s, a);
      if a.Signal? {
        SignalReaches(s, a.t, a.woken);
      } else {
        OtherStepsLoseNothing(s, a);
      }
      if NoLostWakeup(s1) {
        NeverLostIff(s1, actions[1..]);
      }
    }
  }

  /** What the condition variable guarantees, since a signal need not wake more than one
  thread: the run is safe against every choice of the signals if and only if at most one
  thread is parked whenever a resume signals at 0 or above. */
  lemma {:induction false} SignalsAreSafeIff(s: State, actions: seq<Action>)
    requires Inv(s) && Runs(s, actions)
    ensures SignalsAreSafe(s, actions) <==> FewParkedAtSignals(s, actions)
    decreases |actions|
  {
    if actions != [] {
      StepKeepsInv(s, actions[0]);
      if actions[0].Signal? {
        SignalIsSafeIff(s, actions[0].t);
      }
      SignalsAreSafeIff(Do(s, actions[0]), actions[1..]);
    }
  }

  lemma {:induction false} FewParkedNeverLost(s: State, actions: seq<Action>)
    requires Inv(s) && NoLostWakeup(s) && Runs(s, actions) && FewParkedAtSignals(s, actions)
    ensures NeverLost(s, actions)
    ensures NoLostWakeup(After(s, actions)) && Inv(After(s, actions))
    decreases |actions|
  {
    if actions != [] {
      var a := actions[0];
      StepKeepsInv(s, a);
      if a.Signal? {
        SignalIsSafeIff(s, a.t);
      } else {
        OtherStepsLoseNothing(s, a);
      }
      FewParkedNeverLost(Do(s, a), actions[1..]);
    }
  }

  /** At most one thread is in wait at any time of the run. */
  ghost predicate OneWaiterThroughout(s: State, actions: seq<Action>)
    requires Runs(s, actions)
    decreases |actions|
  {
    OneWaiter(s) && (actions != [] ==> OneWaiterThroughout(Do(s, actions[0]), actions[1..]))
  }

  lemma {:induction false} OneWaiterFewParked(s: State, actions: seq<Action>)
    requires Runs(s, actions) && OneWaiterThroughout(s, actions)
    ensures FewParkedAtSignals(s, actions)
    decreases |actions|
  {
    if actions != [] {
      if t :| t in ParkedThreads(s) {
        assert InWait(s.pcs[t]);
        assert forall u :: u in ParkedThreads(s) ==> InWait(s.pcs[u]);
        assert ParkedThreads(s) == {t};
      }
      OneWaiterFewParked(Do(s, actions[0]), actions[1..]);
    }
  }

  /** With one waiter and any number of threads that suspend and resume, in every
  interleaving: a parked waiter means a negative counter, unless a resume stands between
  its increment and its signal. */
  lemma WakeupsAreNotLost(threads: set<Tid>, actions: seq<Action>, w: Tid)
    requires Runs(Initial(threads), actions) && OneWaiterThroughout(Initial(threads), actions)
    requires var s := After(Initial(threads), actions);
             w in s.pcs && s.pcs[w].Parked? && forall t :: t in s.pcs ==> !s.pcs[t].Signalling?
    ensures After(Initial(threads), actions).flag < 0
  {
    OneWaiterFewParked(Initial(threads), actions);
    FewParkedNeverLost(Initial(threads), actions);
  }

  /** Gate safety: in every interleaving, whenever a wait is about to release the lock and
  return 0, at least as many resumes as suspends and waiting starts have happened. */
  lemma WaitReturnsOnlyWhenBalanced(threads: set<Tid>, actions: seq<Action>, t: Tid)
    requires Runs(Initial(threads), actions)
    requires var s := After(Initial(threads), actions); t in s.pcs && s.pcs[t].Leaving?
    ensures var s := After(Initial(threads), actions);
            s.flag == s.resumes - s.suspends - s.starts && s.resumes >= s.suspends + s.starts
  {
    RunKeepsInv(Initial(threads), actions);
  }

  /** The lock excludes: two threads are never both inside a locked section. */
  lemma LockExcludes(threads: set<Tid>, actions: seq<Action>, t: Tid, u: Tid)
    requires Runs(Initial(threads), actions)
    requires var s := After(Initial(threads), actions);
             t in s.pcs && u in s.pcs && HoldsLock(s.pcs[t]) && HoldsLock(s.pcs[u])
    ensures t == u
  {
    RunKeepsInv(Initial(threads), actions);
  }

  // ---- progress ----

  /** The steps of its own that a waiter has left, once the counter stays non-negative. */
  function StepsLeft(pc: Pc): nat {
    match pc
    case Parked => 4
    case WantTest => 3
    case Woken => 3
    case Testing => 2
    case Leaving => 1
    case _ => 0
  }

  function StepsOf(actions: seq<Action>, w: Tid): nat {
    if actions == [] then 0 else (if actions[0].t == w then 1 else 0) + StepsOf(actions[1..], w)
  }

  /** A run in which the counter does not go down and the waiter makes no further call. */
  ghost predicate Quiet(actions: seq<Action>, w: Tid) {
    forall i :: 0 <= i < |actions| ==>
      && !actions[i].Decrement?
      && (actions[i].t == w ==>
            actions[i].Lock? || actions[i].Test? || actions[i].Spurious? || actions[i].Unlock?)
  }

  /** Progress, whatever the others do: from a non-negative counter, with no further
  decrement, the waiter takes at most the steps it has left, and each of them brings it
  nearer to its return. */
  lemma {:induction false} WaiterStepsAreBounded(s: State, actions: seq<Action>, w: Tid)
    requires Inv(s) && s.flag >= 0 && w in s.pcs && (InWait(s.pcs[w]) || s.pcs[w].Outside?)
    requires Runs(s, actions) && Quiet(actions, w)
    ensures w in After(s, actions).pcs
    ensures StepsOf(actions, w) + StepsLeft(After(s, actions).pcs[w]) <= StepsLeft(s.pcs[w])
    decreases |actions|
  {
    if actions != [] {
      var a, s1 := actions[0], Do(s, actions[0]);
      StepKeepsInv(s, a);
      forall i | 0 <= i < |actions[1..]|
        ensures !actions[1..][i].Decrement? && actions[1..][i] == actions[i + 1]
      {
      }
      WaiterStepsAreBounded(s1, actions[1..], w);
    }
  }

  /** And it is never stuck: if no other thread has the lock, its next step is possible,
  even after resumes that left the counter negative and woke it for nothing. */
  lemma WaiterCanStep(s: State, w: Tid) returns (a: Action)
    requires Inv(s) && NoLostWakeup(s) && s.flag >= 0
    requires w in s.pcs && InWait(s.pcs[w]) && (s.owner == None || s.owner == Some(w))
    ensures a.t == w && !a.Spurious? && Enabled(s, a)
    ensures Do(s, a).flag == s.flag && StepsLeft(Do(s, a).pcs[w]) < StepsLeft(s.pcs[w])
    ensures Do(s, a).owner == None || Do(s, a).owner == Some(w)
    ensures InWait(Do(s, a).pcs[w]) || Do(s, a).pcs[w].Outside?
    ensures Inv(Do(s, a))
    ensures NoLostWakeup(Do(s, a))
  {
    var pc := s.pcs[w];
    assert !pc.Parked?;
    a := if WantsLock(pc) then Lock(w) else if pc.Testing? then Test(w) else Unlock(w);
    StepKeepsInv(s, a);
    var s1 := Do(s, a);
    assert !SomeoneSignalling(s);
    assert forall t :: t in s.pcs ==> !s.pcs[t].Parked?;
  }

  /** Left alone, the waiter returns within three steps of its own. */
  lemma {:induction false} WaiterReturns(s: State, w: Tid) returns (actions: seq<Action>)
    requires Inv(s) && NoLostWakeup(s) && s.flag >= 0
    requires w in s.pcs && InWait(s.pcs[w]) && (s.owner == None || s.owner == Some(w))
    ensures |actions| <= StepsLeft(s.pcs[w]) && |actions| <= 3
    ensures forall i :: 0 <= i < |actions| ==> actions[i].t == w
    ensures Runs(s, actions) && w in After(s, actions).pcs && After(s, actions).pcs[w].Outside?
    decreases StepsLeft(s.pcs[w])
  {
    var a := WaiterCanStep(s, w);
    var s1 := Do(s, a);
    if s1.pcs[w].Outside? {
      actions := [a];
      assert Runs(s1, actions[1..]) && After(s1, actions[1..]) == s1;
    } else {
      var rest := WaiterReturns(s1, w);
      actions := [a] + rest;
      assert actions[1..] == rest;
    }
  }

  /** Whoever has the lock can take the next step, so no thread waits for the lock for ever
  because of a stuck owner. */
  lemma OwnerCanStep(s: State, t: Tid) returns (a: Action)
    requires Inv(s) && t in s.pcs && s.owner == Some(t)
    ensures a.t == t && !a.Spurious? && Enabled(s, a)
  {
    var pc := s.pcs[t];
    a := if pc.Testing? then Test(t)
         else if pc.Decrementing? then Decrement(t)
         else if pc.Incrementing? then Increment(t)
         else if pc.Signalling? then Signal(t, ParkedThreads(s))
         else Unlock(t);
  }

  /** No deadlock: in every interleaving every thread can take a step, its own next one if it
  is not parked, except that a thread that wants the lock may find another one holding it,
  which can then step itself. A parked thread can at least wake without a signal. */
  lemma EveryoneCanStep(threads: set<Tid>, actions: seq<Action>, t: Tid) returns (a: Action)
    requires Runs(Initial(threads), actions) && t in After(Initial(threads), actions).pcs
    ensures var s := After(Initial(threads), actions);
            && Enabled(s, a)
            && (a.Spurious? ==> s.pcs[t].Parked?)
            && (a.t == t || (WantsLock(s.pcs[t]) && HoldsLock(s.pcs[a.t])))
  {
    RunKeepsInv(Initial(threads), actions);
    var s := After(Initial(threads), actions);
    var pc := s.pcs[t];
    if s.owner == Some(t) {
      a := OwnerCanStep(s, t);
    } else if pc.Outside? {
      a := CallWait(t);
    } else if pc.Parked? {
      a := Spurious(t);
    } else if s.owner == None {
      a := Lock(t);
    } else {
      a := OwnerCanStep(s, s.owner.value);
    }
  }

  function Increments(actions: seq<Action>): nat {
    if actions == [] then 0 else (if actions[0].Increment? then 1 else 0) + Increments(actions[1..])
  }

  function Decrements(actions: seq<Action>): nat {
    if actions == [] then 0 else (if actions[0].Decrement? then 1 else 0) + Decrements(actions[1..])
  }

  /** The counter is what the steps of the run have made of it, whatever else they did. */
  lemma {:induction false} FlagCounts(s: State, actions: seq<Action>)
    requires Runs(s, actions)
    ensures After(s, actions).flag == s.flag + Increments(actions) - Decrements(actions)
    ensures After(s, actions).resumes == s.resumes + Increments(actions)
    ensures After(s, actions).suspends + After(s, actions).starts == s.suspends + s.starts + Decrements(actions)
    decreases |actions|
  {
    if actions != [] {
      FlagCounts(Do(s, actions[0]), actions[1..]);
    }
  }

  // ---- why one waiter ----

  lemma {:induction false} RunsInTurn(s: State, first: seq<Action>, second: seq<Action>)
    requires Runs(s, first) && Runs(After(s, first), second)
    ensures Runs(s, first + second) && After(s, first + second) == After(After(s, first), second)
    decreases |first|
  {
    if first == [] {
      assert first + second == second;
    } else {
      assert (first + second)[1..] == first[1..] + second;
      RunsInTurn(Do(s, first[0]), first[1..], second);
    }
  }

  lemma OneStep(s: State, a: Action, rest: seq<Action>)
    requires Enabled(s, a) && Runs(Do(s, a), rest)
    ensures Runs(s, [a] + rest) && After(s, [a] + rest) == After(Do(s, a), rest)
  {
    assert ([a] + rest)[1..] == rest;
  }

  /** An uninterrupted suspend. */
  lemma WholeSuspend(s: State, t: Tid) returns (actions: seq<Action>)
    requires t in s.pcs && s.pcs[t].Outside? && s.owner == None
    ensures actions == [CallSuspend(t), Lock(t), Decrement(t), Unlock(t)]
    ensures Runs(s, actions) && After(s, actions) == s.(flag := s.flag - 1, suspends := s.suspends + 1)
  {
    var s1 := Do(s, CallSuspend(t));
    var s2 := Do(s1, Lock(t));
    var s3 := Do(s2, Decrement(t));
    var s4 := Do(s3, Unlock(t));
    OneStep(s3, Unlock(t), []);
    OneStep(s2, Decrement(t), [Unlock(t)] + []);
    OneStep(s1, Lock(t), [Decrement(t)] + ([Unlock(t)] + []));
    OneStep(s, CallSuspend(t), [Lock(t)] + ([Decrement(t)] + ([Unlock(t)] + [])));
    actions := [CallSuspend(t)] + ([Lock(t)] + ([Decrement(t)] + ([Unlock(t)] + [])));
    assert s4.pcs == s.pcs;
  }

  /** A wait that parks. */
  lemma WaitParks(s: State, t: Tid) returns (actions: seq<Action>)
    requires t in s.pcs && s.pcs[t].Outside? && s.owner == None && s.flag < 0
    ensures Runs(s, actions) && After(s, actions) == s.(pcs := s.pcs[t := Parked])
  {
    var s1 := Do(s, CallWait(t));
    var s2 := Do(s1, Lock(t));
    var s3 := Do(s2, Test(t));
    OneStep(s2, Test(t), []);
    OneStep(s1, Lock(t), [Test(t)] + []);
    OneStep(s, CallWait(t), [Lock(t)] + ([Test(t)] + []));
    actions := [CallWait(t)] + ([Lock(t)] + ([Test(t)] + []));
    assert s3.pcs == s.pcs[t := Parked];
  }

  /** An uninterrupted resume whose signal wakes one parked thread. */
  lemma WholeResume(s: State, t: Tid, w: Tid) returns (actions: seq<Action>)
    requires t in s.pcs && s.pcs[t].Outside? && s.owner == None
    requires w in s.pcs && s.pcs[w].Parked?
    ensures actions == [CallResume(t), Lock(t), Increment(t), Signal(t, {w}), Unlock(t)]
    ensures Runs(s, actions)
    ensures After(s, actions) == s.(flag := s.flag + 1, resumes := s.resumes + 1, pcs := s.pcs[w := Woken])
  {
    var s1 := Do(s, CallResume(t));
    var s2 := Do(s1, Lock(t));
    var s3 := Do(s2, Increment(t));
    assert w in ParkedThreads(s3);
    var signal := Signal(t, {w});
    var s4 := Do(s3, signal);
    var s5 := Do(s4, Unlock(t));
    OneStep(s4, Unlock(t), []);
    OneStep(s3, signal, [Unlock(t)] + []);
    OneStep(s2, Increment(t), [signal] + ([Unlock(t)] + []));
    OneStep(s1, Lock(t), [Increment(t)] + ([signal] + ([Unlock(t)] + [])));
    OneStep(s, CallResume(t), [Lock(t)] + ([Increment(t)] + ([signal] + ([Unlock(t)] + []))));
    actions := [CallResume(t)] + ([Lock(t)] + ([Increment(t)] + ([signal] + ([Unlock(t)] + []))));
    assert s5.pcs == s.pcs[w := Woken];
  }

  /** With two waiters the guarantee is gone. From any state with a free lock and counter 0,
  one suspend, two waits and one resume can leave a thread parked for good: the counter is
  back at 0, the resume is over, its signal went to the other waiter, and the only step the
  thread can take is a spurious wakeup. */
  lemma TwoWaitersCanLoseAWakeup(s: State, c: Tid, t: Tid, u: Tid) returns (actions: seq<Action>)
    requires s.owner == None && s.flag == 0 && c != t && t != u && c != u
    requires c in s.pcs && t in s.pcs && u in s.pcs
    requires s.pcs[c].Outside? && s.pcs[t].Outside? && s.pcs[u].Outside?
    ensures Runs(s, actions)
    ensures var s1 := After(s, actions);
            && s1.flag == 0 && s1.owner == None && s1.pcs == s.pcs[t := Woken][u := Parked]
            && forall a: Action :: a.t == u && Enabled(s1, a) ==> a.Spurious?
  {
    hide Runs, After;
    var a1 := WholeSuspend(s, c);
    var s1 := After(s, a1);
    var a2 := WaitParks(s1, t);
    var s2 := After(s1, a2);
    var a3 := WaitParks(s2, u);
    var s3 := After(s2, a3);
    var a4 := WholeResume(s3, c, t);
    var s4 := After(s3, a4);
    RunsInTurn(s2, a3, a4);
    RunsInTurn(s1, a2, a3 + a4);
    RunsInTurn(s, a1, a2 + (a3 + a4));
    actions := a1 + (a2 + (a3 + a4));
    assert s4.pcs == s.pcs[t := Woken][u := Parked];
  }
}
