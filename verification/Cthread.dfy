/** suspend, resume, wait and the waiting part of start as whole calls, with other threads at
work between any two of their statements. */
module Cthread {
  import opened Options
  import opened Gate

  /** The steps a thread takes itself; a spurious wakeup happens to it. */
  function Own(trace: seq<Action>, me: Tid): seq<Action> {
    if trace == [] then []
    else
      var a := trace[|trace| - 1];
      Own(trace[..|trace| - 1], me) + if a.t == me && !a.Spurious? then [a] else []
  }

  lemma OwnSnoc(trace: seq<Action>, a: Action, me: Tid)
    ensures Own(trace + [a], me) == Own(trace, me) + if a.t == me && !a.Spurious? then [a] else []
  {
    assert (trace + [a])[..|trace|] == trace;
  }

  /** Parking and coming back with the lock, a number of times. */
  function Rounds(me: Tid, rounds: nat): seq<Action> {
    if rounds == 0 then [] else Rounds(me, rounds - 1) + [Test(me), Lock(me)]
  }

  /** The whole of a wait that comes back. */
  function WaitSteps(me: Tid, rounds: nat): seq<Action> {
    Entered(me, rounds) + [Test(me), Unlock(me)]
  }

  function Entered(me: Tid, rounds: nat): seq<Action> {
    [CallWait(me), Lock(me)] + Rounds(me, rounds)
  }

  lemma NextRound(own: seq<Action>, me: Tid, rounds: nat)
    ensures own + [CallWait(me)] + [Lock(me)] == own + Entered(me, 0)
    ensures own + Entered(me, rounds) + [Test(me), Lock(me)] == own + Entered(me, rounds + 1)
    ensures own + Entered(me, rounds) + [Test(me)] + [Unlock(me)] == own + WaitSteps(me, rounds)
  {
    assert Entered(me, rounds) + [Test(me), Lock(me)] == Entered(me, rounds + 1);
  }

  lemma FiveSteps(own: seq<Action>, a: Action, b: Action, c: Action, d: Action, e: Action)
    ensures own + [a] + [b] + [c] + [d] + [e] == own + [a, b, c, d, e]
  {
  }

  // ---- what the other threads do ----

  predicate Foreign(a: Action, me: Tid) {
    a.t != me || a.Spurious?
  }

  /** What happens of the steps that other threads try one after another: those that are
  possible when their turn comes. If all of them are, all of them happen. */
  function Performed(s: State, tried: seq<Action>, me: Tid): (steps: seq<Action>)
    ensures Runs(s, steps)
    ensures Runs(s, tried) && (forall i :: 0 <= i < |tried| ==> Foreign(tried[i], me)) ==> steps == tried
    decreases |tried|
  {
    if tried == [] then []
    else if Foreign(tried[0], me) && Enabled(s, tried[0]) then
      var rest := Performed(Do(s, tried[0]), tried[1..], me);
      OneStep(s, tried[0], rest);
      [tried[0]] + rest
    else
      Performed(s, tried[1..], me)
  }

  /** The portion that comes next, as far as there is one. */
  function Portion(schedule: seq<seq<Action>>, i: nat): seq<Action> {
    if i < |schedule| then schedule[i] else []
  }

  function Drop(schedule: seq<seq<Action>>, n: nat): seq<seq<Action>> {
    if n <= |schedule| then schedule[n..] else []
  }

  /** The others do nothing at the next `n` points. */
  predicate Undisturbed(schedule: seq<seq<Action>>, n: nat) {
    forall i :: 0 <= i < n ==> Portion(schedule, i) == []
  }

  lemma UndisturbedLater(schedule: seq<seq<Action>>, n: nat, m: nat)
    requires Undisturbed(schedule, n + m)
    ensures Undisturbed(schedule, n) && Undisturbed(Drop(schedule, n), m)
    ensures n > 0 ==> Portion(schedule, 0) == []
    ensures m > 0 ==> Portion(Drop(schedule, n), 0) == []
    ensures Drop(Drop(schedule, n), m) == Drop(schedule, n + m)
  {
    assert forall i :: 0 <= i < m ==> Portion(Drop(schedule, n), i) == Portion(schedule, n + i);
  }

  /** Nobody else is in a call. */
  ghost predicate Alone(s: State, me: Tid) {
    me in s.pcs && forall t :: t in s.pcs && t != me ==> s.pcs[t].Outside?
  }

  /** A whole resume, by some other thread, whose signal wakes the caller. */
  predicate IsResume(portion: seq<Action>, threads: set<Tid>, me: Tid) {
    && portion != [] && portion[0].t != me && portion[0].t in threads
    && var t := portion[0].t;
       portion == [CallResume(t), Lock(t), Increment(t), Signal(t, {me}), Unlock(t)]
  }

  /** `k` resumes, each while the caller is parked, and nothing else. */
  predicate Answered(schedule: seq<seq<Action>>, threads: set<Tid>, me: Tid, k: nat) {
    && Portion(schedule, 0) == [] && Portion(schedule, 1) == []
    && forall j :: 0 <= j < k ==>
         IsResume(Portion(schedule, 2 + 2 * j), threads, me) && Portion(schedule, 3 + 2 * j) == []
  }

  lemma NothingPerformed(s: State, me: Tid)
    ensures Performed(s, [], me) == [] && Runs(s, []) && After(s, []) == s
  {
  }

  /** The next step that is tried, after those that have happened. */
  lemma PerformedNext(s0: State, steps: seq<Action>, tried: seq<Action>, me: Tid)
    requires Runs(s0, steps) && tried != []
    ensures var s, a := After(s0, steps), tried[0];
            if Foreign(a, me) && Enabled(s, a)
            then Performed(s, tried, me) == [a] + Performed(Do(s, a), tried[1..], me)
                 && Runs(s0, steps + [a]) && After(s0, steps + [a]) == Do(s, a)
            else Performed(s, tried, me) == Performed(s, tried[1..], me)
  {
    var s, a := After(s0, steps), tried[0];
    if Foreign(a, me) && Enabled(s, a) {
      OneStep(s, a, []);
      assert [a] + [] == [a];
      RunsInTurn(s0, steps, [a]);
    }
  }

  /** Such a resume, met by a parked caller. */
  lemma ResumeWakes(s: State, portion: seq<Action>, me: Tid)
    requires Alone(s, me) && s.pcs[me].Parked? && s.owner == None && IsResume(portion, s.pcs.Keys, me)
    ensures Runs(s, portion) && Performed(s, portion, me) == portion
    ensures After(s, portion) == s.(flag := s.flag + 1, resumes := s.resumes + 1, pcs := s.pcs[me := Woken])
  {
    var t := portion[0].t;
    var actions := WholeResume(s, t, me);
  }

  /** The object: the counter, the lock inside its condition variable, and where its callers
  stand. `schedule` is what the other threads will try, one portion for each time the
  running call can be interrupted; what is not possible at that time does not happen. */
  class Thread {
    var flag: int
    var owner: Option<Tid>
    var pcs: map<Tid, Pc>
    var resumes: nat
    var suspends: nat
    var starts: nat
    var schedule: seq<seq<Action>>

    /** Everything that has happened, in order. */
    ghost var trace: seq<Action>
    ghost const threads: set<Tid>

    function View(): State
      reads this
    {
      State(flag, owner, pcs, resumes, suspends, starts)
    }

    /** What has happened is a run of the protocol, and the fields are where it has led. */
    ghost predicate Valid()
      reads this
    {
      Runs(Initial(threads), trace) && After(Initial(threads), trace) == View() && Inv(View())
    }

    constructor (threads: set<Tid>, schedule: seq<seq<Action>>)
      ensures Valid() && trace == [] && this.threads == threads && this.schedule == schedule
      ensures flag == 0 && owner == None && pcs == map t | t in threads :: Outside
    {
      this.threads, this.schedule := threads, schedule;
      flag, owner, pcs := 0, None, map t | t in threads :: Outside;
      resumes, suspends, starts := 0, 0, 0;
      trace := [];
    }

    lemma Extends(a: Action)
      requires Valid() && Enabled(View(), a)
      ensures Runs(Initial(threads), trace + [a])
      ensures After(Initial(threads), trace + [a]) == Do(View(), a) && Inv(Do(View(), a))
    {
      StepKeepsInv(View(), a);
      OneStep(View(), a, []);
      assert [a] + [] == [a];
      RunsInTurn(Initial(threads), trace, [a]);
    }

    /** One step of whichever thread. */
    method Perform(a: Action)
      requires Valid() && Enabled(View(), a)
      modifies `flag, `owner, `pcs, `resumes, `suspends, `starts, `trace
      ensures Valid() && View() == Do(old(View()), a) && trace == old(trace) + [a]
    {
      Extends(a);
      var s := Do(View(), a);
      flag, owner, pcs := s.flag, s.owner, s.pcs;
      resumes, suspends, starts := s.resumes, s.suspends, s.starts;
      trace := trace + [a];
    }

    lemma Balance()
      requires Valid()
      ensures flag == resumes - suspends - starts
    {
    }

    /** A step of the caller's own. */
    method Mine(me: Tid, a: Action)
      requires Valid() && a.t == me && !a.Spurious? && Enabled(View(), a)
      modifies `flag, `owner, `pcs, `resumes, `suspends, `starts, `trace
      ensures Valid() && View() == Do(old(View()), a)
      ensures Own(trace, me) == old(Own(trace, me)) + [a]
    {
      OwnSnoc(trace, a, me);
      Perform(a);
    }

    /** `flag_--` */
    method Decrease(me: Tid)
      requires Valid() && me in pcs && pcs[me].Decrementing?
      modifies `flag, `pcs, `suspends, `starts, `trace
      ensures Valid() && flag == old(flag) - 1 && pcs == old(pcs)[me := Decremented]
      ensures Own(trace, me) == old(Own(trace, me)) + [Decrement(me)]
    {
      OwnSnoc(trace, Decrement(me), me);
      Extends(Decrement(me));
      flag := flag - 1;
      if pcs[me].starting {
        starts := starts + 1;
      } else {
        suspends := suspends + 1;
      }
      pcs, trace := pcs[me := Decremented], trace + [Decrement(me)];
    }

    /** `flag_++` */
    method Increase(me: Tid)
      requires Valid() && me in pcs && pcs[me].Incrementing?
      modifies `flag, `pcs, `resumes, `trace
      ensures Valid() && flag == old(flag) + 1 && pcs == old(pcs)[me := Signalling]
      ensures Own(trace, me) == old(Own(trace, me)) + [Increment(me)]
    {
      OwnSnoc(trace, Increment(me), me);
      Extends(Increment(me));
      flag := flag + 1;
      resumes, pcs, trace := resumes + 1, pcs[me := Signalling], trace + [Increment(me)];
    }

    /** The other threads run for a while. They can wake the caller if it is parked and
    nothing else; in particular they cannot touch the counter while it has the lock. */
    method Others(me: Tid)
      requires Valid() && me in pcs
      modifies this
      ensures Valid() && me in pcs && Own(trace, me) == old(Own(trace, me))
      ensures pcs[me] == old(pcs[me]) || (old(pcs[me]).Parked? && pcs[me].Woken?)
      ensures HoldsLock(pcs[me]) ==> flag == old(flag) && owner == old(owner)
      ensures schedule == Drop(old(schedule), 1)
      ensures var steps := Performed(old(View()), Portion(old(schedule), 0), me);
              trace == old(trace) + steps && View() == After(old(View()), steps)
      ensures Portion(old(schedule), 0) == [] ==> View() == old(View())
    {
      hide Own, Runs, After, Inv, Performed;
      ghost var s0, steps: seq<Action> := View(), [];
      NothingPerformed(s0, me);
      if schedule == [] {
        return;
      }
      var portion := schedule[0];
      schedule := schedule[1..];
      assert portion[0..] == portion;
      for i := 0 to |portion|
        invariant Runs(s0, steps) && View() == After(s0, steps) && trace == old(trace) + steps
        invariant steps + Performed(View(), portion[i..], me) == Performed(s0, portion, me)
        invariant Valid() && me in pcs && Own(trace, me) == old(Own(trace, me))
        invariant pcs[me] == old(pcs[me]) || (old(pcs[me]).Parked? && pcs[me].Woken?)
        invariant HoldsLock(pcs[me]) ==> flag == old(flag) && owner == old(owner)
        invariant schedule == old(schedule)[1..] && (portion == [] ==> View() == s0)
      {
        var a := portion[i];
        assert portion[i..][1..] == portion[i + 1..];
        PerformedNext(s0, steps, portion[i..], me);
        if Foreign(a, me) && Enabled(View(), a) {
          Other(me, a);
          steps := steps + [a];
        }
      }
      assert portion[|portion|..] == [];
      NothingPerformed(View(), me);
      assert steps == Performed(s0, portion, me);
    }

    method Other(me: Tid, a: Action)
      requires Valid() && me in pcs && Foreign(a, me) && Enabled(View(), a)
      modifies `flag, `owner, `pcs, `resumes, `suspends, `starts, `trace
      ensures Valid() && me in pcs && Own(trace, me) == old(Own(trace, me))
      ensures pcs[me] == old(pcs[me]) || (old(pcs[me]).Parked? && pcs[me].Woken?)
      ensures HoldsLock(pcs[me]) ==> flag == old(flag) && owner == old(owner)
      ensures View() == Do(old(View()), a) && trace == old(trace) + [a]
    {
      hide Runs, After, Own;
      OwnSnoc(trace, a, me);
      Perform(a);
    }

    /** `cond_.lock()`, and the way back in from `cond_.wait()`: blocks until the lock is
    free. Without it when the others have nothing left to do and one of them has the lock. */
    method Acquire(me: Tid) returns (got: bool)
      requires Valid() && me in pcs && WantsLock(pcs[me])
      modifies this
      ensures Valid() && me in pcs && |schedule| <= old(|schedule|)
      ensures got ==> pcs[me] == Locked(old(pcs[me])) && Own(trace, me) == old(Own(trace, me)) + [Lock(me)]
      ensures !got ==> pcs[me] == old(pcs[me]) && owner != None && schedule == []
      ensures old(owner) == None ==> got && View() == Do(old(View()), Lock(me)) && schedule == old(schedule)
    {
      hide Thread.Valid, Own, Runs, After, Inv, Performed;
      while owner != None && schedule != []
        invariant old(owner) == None ==> View() == old(View()) && schedule == old(schedule)
        invariant Valid() && me in pcs && pcs[me] == old(pcs[me]) && Own(trace, me) == old(Own(trace, me))
        invariant |schedule| <= old(|schedule|)
        decreases |schedule|
      {
        Others(me);
      }
      got := owner == None;
      if got {
        Mine(me, Lock(me));
      }
    }

    /** `cond_.lock()` at any time: others may act before it, and after it before the caller's
    next step. */
    method Enter(me: Tid) returns (got: bool)
      requires Valid() && me in pcs && WantsLock(pcs[me]) && !pcs[me].Woken?
      modifies this
      ensures Valid() && me in pcs && |schedule| <= old(|schedule|)
      ensures got ==> pcs[me] == Locked(old(pcs[me])) && Own(trace, me) == old(Own(trace, me)) + [Lock(me)]
      ensures !got ==> pcs[me] == old(pcs[me]) && owner != None && schedule == []
      ensures Alone(old(View()), me) && old(owner) == None && Undisturbed(old(schedule), 2) ==>
                && got && Alone(View(), me) && pcs.Keys == old(pcs).Keys
                && flag == old(flag) && schedule == Drop(old(schedule), 2)
    {
      hide Thread.Valid, Own, Rounds, Runs, After, Inv, Performed;
      if Undisturbed(schedule, 2) {
        UndisturbedLater(schedule, 1, 1);
      }
      Others(me);
      got := Acquire(me);
      if got {
        Others(me);
      }
    }

    /** `cond_.unlock()`, and with it the end of the call. */
    method Leave(me: Tid)
      requires Valid() && me in pcs && (pcs[me].Leaving? || pcs[me].Decremented? || pcs[me].Signalled?)
      modifies this
      ensures Valid() && me in pcs && pcs[me].Outside? && flag == old(flag)
      ensures Own(trace, me) == old(Own(trace, me)) + [Unlock(me)]
      ensures Alone(old(View()), me) && Undisturbed(old(schedule), 1) ==>
                && Alone(View(), me) && owner == None && pcs.Keys == old(pcs).Keys
                && schedule == Drop(old(schedule), 1)
    {
      hide Thread.Valid, Own, Rounds, Runs, After, Inv, Performed;
      Others(me);
      Mine(me, Unlock(me));
    }

    method Suspend(me: Tid) returns (done: bool)
      requires Valid() && me in pcs && pcs[me].Outside?
      modifies this
      ensures Valid() && me in pcs
      ensures done ==> pcs[me].Outside?
      ensures done ==> Own(trace, me) == old(Own(trace, me)) + [CallSuspend(me), Lock(me), Decrement(me), Unlock(me)]
      ensures !done ==> pcs[me].WantDecrement? && owner != None && schedule == []
      ensures Alone(old(View()), me) && old(owner) == None && Undisturbed(old(schedule), 3) ==>
                && done && Alone(View(), me) && owner == None && pcs.Keys == old(pcs).Keys
                && flag == old(flag) - 1 && schedule == Drop(old(schedule), 3)
    {
      hide Thread.Valid, Own, Rounds, Runs, After, Inv;
      Mine(me, CallSuspend(me));
      done := Lower(me);
    }

    /** The part of start(1) before the thread is created. */
    method StartWaiting(me: Tid) returns (done: bool)
      requires Valid() && me in pcs && pcs[me].Outside?
      modifies this
      ensures Valid() && me in pcs
      ensures done ==> pcs[me].Outside?
      ensures done ==> Own(trace, me) == old(Own(trace, me)) + [CallStart(me), Lock(me), Decrement(me), Unlock(me)]
      ensures !done ==> pcs[me].WantDecrement? && owner != None && schedule == []
      ensures Alone(old(View()), me) && old(owner) == None && Undisturbed(old(schedule), 3) ==>
                && done && Alone(View(), me) && owner == None && pcs.Keys == old(pcs).Keys
                && flag == old(flag) - 1 && schedule == Drop(old(schedule), 3)
    {
      hide Thread.Valid, Own, Rounds, Runs, After, Inv;
      Mine(me, CallStart(me));
      done := Lower(me);
    }

    /** lock, `flag_--`, unlock */
    method Lower(me: Tid) returns (done: bool)
      requires Valid() && me in pcs && pcs[me].WantDecrement?
      modifies this
      ensures Valid() && me in pcs
      ensures done ==> pcs[me].Outside?
      ensures done ==> Own(trace, me) == old(Own(trace, me)) + [Lock(me), Decrement(me), Unlock(me)]
      ensures !done ==> pcs[me] == old(pcs[me]) && owner != None && schedule == []
      ensures Alone(old(View()), me) && old(owner) == None && Undisturbed(old(schedule), 3) ==>
                && done && Alone(View(), me) && owner == None && pcs.Keys == old(pcs).Keys
                && flag == old(flag) - 1 && schedule == Drop(old(schedule), 3)
    {
      hide Thread.Valid, Own, Rounds, Runs, After, Inv, Performed;
      if Undisturbed(schedule, 3) {
        UndisturbedLater(schedule, 2, 1);
      }
      done := Enter(me);
      if !done {
        return;
      }
      Decrease(me);
      Leave(me);
    }

    /** `cond_.signal()` */
    method GiveSignal(me: Tid, chosen: set<Tid>) returns (ghost woken: set<Tid>)
      requires Valid() && me in pcs && pcs[me].Signalling?
      modifies `flag, `owner, `pcs, `resumes, `suspends, `starts, `trace
      ensures Valid() && me in pcs && View() == Do(old(View()), Signal(me, woken))
      ensures Own(trace, me) == old(Own(trace, me)) + [Signal(me, woken)]
      ensures woken <= ParkedThreads(old(View())) && (ParkedThreads(old(View())) != {} ==> woken != {})
      ensures chosen * ParkedThreads(old(View())) != {} ==> woken == chosen * ParkedThreads(old(View()))
    {
      hide Thread.Valid, Own, Runs, After, Inv;
      var parked := ParkedThreads(View());
      var wake := if chosen * parked == {} then parked else chosen * parked;
      woken := wake;
      Mine(me, Signal(me, wake));
    }

    /** The counter goes up, and a signal follows. */
    method Raise(me: Tid, chosen: set<Tid>) returns (ghost woken: set<Tid>)
      requires Valid() && me in pcs && pcs[me].Incrementing?
      modifies this
      ensures Valid() && me in pcs && pcs[me].Signalled?
      ensures Own(trace, me) == old(Own(trace, me)) + [Increment(me)] + [Signal(me, woken)]
      ensures Alone(old(View()), me) && Undisturbed(old(schedule), 1) ==>
                && Alone(View(), me) && pcs.Keys == old(pcs).Keys
                && flag == old(flag) + 1 && schedule == Drop(old(schedule), 1)
    {
      hide Thread.Valid, Own, Rounds, Runs, After, Inv, Performed;
      Increase(me);
      Others(me);
      woken := GiveSignal(me, chosen);
    }

    /** `chosen` decides which parked threads the signal wakes, at least one if there are any. */
    method Resume(me: Tid, chosen: set<Tid>) returns (done: bool, ghost woken: set<Tid>)
      requires Valid() && me in pcs && pcs[me].Outside?
      modifies this
      ensures Valid() && me in pcs
      ensures done ==> pcs[me].Outside?
      ensures done ==>
                Own(trace, me) == old(Own(trace, me))
                                + [CallResume(me), Lock(me), Increment(me), Signal(me, woken), Unlock(me)]
      ensures !done ==> pcs[me].WantIncrement? && owner != None && schedule == []
      ensures Alone(old(View()), me) && old(owner) == None && Undisturbed(old(schedule), 4) ==>
                && done && Alone(View(), me) && owner == None && pcs.Keys == old(pcs).Keys
                && flag == old(flag) + 1 && schedule == Drop(old(schedule), 4)
    {
      hide Thread.Valid, Own, Rounds, Runs, After, Inv, Performed;
      woken := {};
      ghost var own := Own(trace, me);
      if Undisturbed(schedule, 4) {
        UndisturbedLater(schedule, 2, 2);
        UndisturbedLater(Drop(schedule, 2), 1, 1);
        UndisturbedLater(schedule, 3, 1);
      }
      Mine(me, CallResume(me));
      done := Enter(me);
      if !done {
        return;
      }
      woken := Raise(me, chosen);
      Leave(me);
      FiveSteps(own, CallResume(me), Lock(me), Increment(me), Signal(me, woken), Unlock(me));
    }

    /** `cond_.wait()`: gives the lock up and parks in one step, and takes the lock again once
    the thread has been woken, whether by a signal or without one. A resume that comes while
    the caller is parked brings it back. */
    method Park(me: Tid) returns (back: bool)
      requires Valid() && me in pcs && pcs[me].Testing? && flag < 0
      modifies this
      ensures Valid() && me in pcs
      ensures back ==> pcs[me].Testing? && |schedule| < old(|schedule|)
      ensures back ==> Own(trace, me) == old(Own(trace, me)) + [Test(me), Lock(me)]
      ensures !back ==> (pcs[me].Parked? || (pcs[me].Woken? && owner != None)) && schedule == []
      ensures Alone(old(View()), me) && IsResume(Portion(old(schedule), 0), old(pcs).Keys, me) ==>
                && back && Alone(View(), me) && pcs.Keys == old(pcs).Keys
                && flag == old(flag) + 1 && schedule == Drop(old(schedule), 1)
    {
      hide Thread.Valid, Own, Rounds, Runs, After, Inv, Performed;
      ghost var resumed := Alone(View(), me) && IsResume(Portion(schedule, 0), pcs.Keys, me);
      Mine(me, Test(me));
      ghost var parked := View();
      if resumed {
        ResumeWakes(parked, Portion(schedule, 0), me);
      }
      while pcs[me].Parked? && schedule != []
        invariant resumed ==>
                    || (View() == parked && schedule == old(schedule))
                    || (View() == After(parked, old(schedule)[0]) && schedule == Drop(old(schedule), 1))
        invariant Valid() && me in pcs && (pcs[me].Parked? || pcs[me].Woken?)
        invariant Own(trace, me) == old(Own(trace, me)) + [Test(me)]
        invariant pcs[me].Woken? ==> |schedule| < old(|schedule|)
        decreases |schedule|
      {
        Others(me);
      }
      back := false;
      if pcs[me].Woken? {
        back := Acquire(me);
      }
    }

    /** `cond_.wait()`, and what others do before the loop condition is looked at again. */
    method CondWait(me: Tid) returns (back: bool)
      requires Valid() && me in pcs && pcs[me].Testing? && flag < 0
      modifies this
      ensures Valid() && me in pcs
      ensures back ==> pcs[me].Testing? && |schedule| < old(|schedule|)
      ensures back ==> Own(trace, me) == old(Own(trace, me)) + [Test(me), Lock(me)]
      ensures !back ==> (pcs[me].Parked? || (pcs[me].Woken? && owner != None)) && schedule == []
      ensures Alone(old(View()), me) && Portion(old(schedule), 1) == []
              && IsResume(Portion(old(schedule), 0), old(pcs).Keys, me) ==>
                && back && Alone(View(), me) && pcs.Keys == old(pcs).Keys
                && flag == old(flag) + 1 && schedule == Drop(old(schedule), 2)
    {
      hide Thread.Valid, Own, Rounds, Runs, After, Inv, Performed, IsResume;
      back := Park(me);
      if back {
        Others(me);
      }
    }

    /** From the call to the first look at the loop condition. */
    method EnterWait(me: Tid) returns (got: bool)
      requires Valid() && me in pcs && pcs[me].Outside?
      modifies this
      ensures Valid() && me in pcs && |schedule| <= old(|schedule|)
      ensures got ==> pcs[me].Testing?
      ensures got ==> Own(trace, me) == old(Own(trace, me)) + [CallWait(me)] + [Lock(me)]
      ensures !got ==> pcs[me].WantTest? && owner != None && schedule == []
      ensures Alone(old(View()), me) && old(owner) == None
              && Portion(old(schedule), 0) == [] && Portion(old(schedule), 1) == [] ==>
                && got && Alone(View(), me) && pcs.Keys == old(pcs).Keys
                && flag == old(flag) && schedule == Drop(old(schedule), 2)
    {
      hide Thread.Valid, Own, Rounds, Runs, After, Inv, Performed;
      Mine(me, CallWait(me));
      got := Enter(me);
    }

    /** The call parks as often as the counter makes it, and when it comes back the counter is
    not negative: as many resumes as suspends and waiting starts have happened. It does not
    come back only if the others leave it parked or keep the lock; if as many resumes as are
    missing come while it is parked, it does. */
    method Wait(me: Tid) returns (done: bool, ghost rounds: nat)
      requires Valid() && me in pcs && pcs[me].Outside?
      modifies this
      ensures Valid() && me in pcs
      ensures done ==> pcs[me].Outside? && flag >= 0 && resumes >= suspends + starts
      ensures done ==> Own(trace, me) == old(Own(trace, me)) + WaitSteps(me, rounds)
      ensures !done ==> InWait(pcs[me]) && (pcs[me].Parked? || owner != None) && !HoldsLock(pcs[me]) && schedule == []
      ensures Alone(old(View()), me) && old(owner) == None && old(flag) <= 0
              && Answered(old(schedule), old(pcs).Keys, me, -old(flag))
              ==> done && rounds == -old(flag) && flag == 0
    {
      hide Thread.Valid, Own, Runs, After, Inv, Entered, WaitSteps, Performed, IsResume;
      rounds := 0;
      ghost var own := Own(trace, me);
      ghost var answered := Alone(View(), me) && owner == None && flag <= 0
                            && Answered(schedule, pcs.Keys, me, -flag);
      done := EnterWait(me);
      if !done {
        return;
      }
      NextRound(own, me, 0);
      while flag < 0
        invariant Valid() && me in pcs && pcs[me].Testing?
        invariant Own(trace, me) == own + Entered(me, rounds)
        invariant answered ==>
                    && Alone(View(), me) && pcs.Keys == old(pcs).Keys && flag == old(flag) + rounds <= 0
                    && schedule == Drop(old(schedule), 2 + 2 * rounds)
        decreases |schedule|
      {
        done := CondWait(me);
        if !done {
          return;
        }
        NextRound(own, me, rounds);
        rounds := rounds + 1;
      }
      NextRound(own, me, rounds);
      PassGate(me);
    }

    /** The rest of wait, once the loop condition is false. */
    method PassGate(me: Tid)
      requires Valid() && me in pcs && pcs[me].Testing? && flag >= 0
      modifies this
      ensures Valid() && me in pcs && pcs[me].Outside?
      ensures flag == old(flag) >= 0 && resumes >= suspends + starts
      ensures Own(trace, me) == old(Own(trace, me)) + [Test(me)] + [Unlock(me)]
    {
      hide Thread.Valid, Own, Runs, After, Inv;
      Mine(me, Test(me));
      Leave(me);
      Balance();
    }

    /** A wait that has not come back and is parked, with no resume on its way, is parked for
    a reason, as long as no signal of the past met two parked threads. */
    lemma StaysParkedOnlyWhileSuspended(me: Tid)
      requires Valid() && me in pcs && pcs[me].Parked?
      requires FewParkedAtSignals(Initial(threads), trace)
      requires forall t :: t in pcs ==> !pcs[t].Signalling?
      ensures flag < 0 && resumes < suspends + starts
    {
      FewParkedNeverLost(Initial(threads), trace);
    }
  }

  /** The use of the gate: a thread that suspends itself and waits goes on when another one
  resumes it, and finds the counter back where it was. */
  method SuspendedUntilResumed(thread: Thread, me: Tid) returns (done: bool)
    requires thread.Valid() && Alone(thread.View(), me) && thread.pcs[me].Outside?
    requires thread.flag == 0 && thread.owner == None && Undisturbed(thread.schedule, 3)
    requires Answered(Drop(thread.schedule, 3), thread.pcs.Keys, me, 1)
    modifies thread
    ensures thread.Valid() && done && thread.flag == 0 && me in thread.pcs && thread.pcs[me].Outside?
  {
    hide Thread.Valid, Own, Runs, After, Inv, Performed, Answered, WaitSteps;
    var suspended := thread.Suspend(me);
    ghost var rounds;
    done, rounds := thread.Wait(me);
  }
}
