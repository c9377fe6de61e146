/**
  From every reachable state of the multi-reader lock all threads can finish: without new requests, and without any
  help from spurious wake-ups, there is a schedule of at most six atomic accesses for each busy thread after which
  every thread is outside the lock.
*/
module MrLockProgress {
  import opened Bits
  import opened MrLockWord
  import opened MrLock
  import opened MrLockSafety

  predicate CanSchedule(s: State, ts: seq<nat>)
    decreases |ts|
  {
    ts == [] || (Enabled(s, Run(ts[0])) && CanSchedule(Step(s, ts[0]), ts[1..]))
  }

  function Schedule(s: State, ts: seq<nat>): State
    requires CanSchedule(s, ts)
    decreases |ts|
  {
    if ts == [] then s else Schedule(Step(s, ts[0]), ts[1..])
  }

  lemma {:induction false} ScheduleAppend(s: State, ts: seq<nat>, us: seq<nat>)
    requires CanSchedule(s, ts) && CanSchedule(Schedule(s, ts), us)
    ensures CanSchedule(s, ts + us) && Schedule(s, ts + us) == Schedule(Schedule(s, ts), us)
    decreases |ts|
  {
    if ts == [] {
      assert ts + us == us;
    } else {
      ScheduleAppend(Step(s, ts[0]), ts[1..], us);
      assert (ts + us)[1..] == ts[1..] + us;
    }
  }

  /** Running thread t alone takes it out of the lock in at most n steps. */
  predicate Finishes(s: State, t: nat, n: nat)
    decreases n
  {
    n > 0 && Enabled(s, Run(t)) && (Step(s, t).threads[t].Idle? || Finishes(Step(s, t), t, n - 1))
  }

  lemma StepBusy(s: State, t: nat)
    requires Enabled(s, Run(t))
    ensures Count(Step(s, t).threads, Busy) + (if Step(s, t).threads[t].Idle? then 1 else 0) == Count(s.threads, Busy)
  {
    CountWakeAll(s.threads, Busy);
    CountUpdate(WakeAll(s.threads), t, Idle, Busy);
    CountUpdate(s.threads, t, Step(s, t).threads[t], Busy);
  }

  lemma {:induction false} FinishOne(s: State, t: nat, n: nat) returns (ts: seq<nat>)
    requires Inv(s) && Finishes(s, t, n)
    ensures |ts| <= n && CanSchedule(s, ts)
    ensures Inv(Schedule(s, ts)) && Count(Schedule(s, ts).threads, Busy) == Count(s.threads, Busy) - 1
    decreases n
  {
    var s' := Step(s, t);
    StepKeepsInv(s, t);
    StepBusy(s, t);
    if s'.threads[t].Idle? {
      ts := [t];
    } else {
      var rest := FinishOne(s', t, n - 1);
      ts := [t] + rest;
      assert ts[1..] == rest;
    }
  }

  lemma {:induction false} FinishesSooner(s: State, t: nat, n: nat, m: nat)
    requires Finishes(s, t, n) && n <= m
    ensures Finishes(s, t, m)
    decreases n
  {
    if !Step(s, t).threads[t].Idle? {
      FinishesSooner(Step(s, t), t, n - 1, m - 1);
    }
  }

  // A writer alone with nobody inside.

  lemma LeaverFinishes(s: State, t: nat)
    requires Inv(s) && t < |s.threads| && (s.threads[t].Inside() || s.threads[t].RWake? || s.threads[t].WWake?)
    ensures Finishes(s, t, 2)
  {
    var s' := Step(s, t);
    assert s'.threads[t].Idle? || Finishes(s', t, 1);
  }

  lemma WriterWins(s: State, t: nat)
    requires Inv(s) && t < |s.threads| && s.threads[t].WCas? && s.iv == s.threads[t].oldval
    ensures Finishes(s, t, 3)
  {
    StepKeepsInv(s, t);
    LeaverFinishes(Step(s, t), t);
  }

  /** A CAS with a stale value fails once and then wins. */
  lemma WriterRetries(s: State, t: nat)
    requires Inv(s) && t < |s.threads| && s.threads[t].WCas? && MayWrite(s.iv)
    ensures Finishes(s, t, 4)
  {
    if s.iv == s.threads[t].oldval {
      WriterWins(s, t);
      FinishesSooner(s, t, 3, 4);
    } else {
      StepKeepsInv(s, t);
      WriterWins(Step(s, t), t);
    }
  }

  lemma WriterLoads(s: State, t: nat)
    requires Inv(s) && t < |s.threads| && s.threads[t].WLoad? && MayWrite(s.iv)
    ensures Finishes(s, t, 4)
  {
    StepKeepsInv(s, t);
    WriterWins(Step(s, t), t);
  }

  /** The word has changed since `oldval` was taken, so the kernel refuses the sleep. */
  lemma WriterWaits(s: State, t: nat)
    requires Inv(s) && t < |s.threads| && s.threads[t].WWait? && MayWrite(s.iv)
    ensures Finishes(s, t, 5)
  {
    StepKeepsInv(s, t);
    WriterLoads(Step(s, t), t);
  }

  lemma WriterOrs(s: State, t: nat)
    requires Inv(s) && t < |s.threads| && s.threads[t].WOr? && MayWrite(s.iv)
    ensures Finishes(s, t, 6)
  {
    StepKeepsInv(s, t);
    OrWwaitIs(s.iv);
    Tests(s.iv);
    Tests(Or(s.iv, WWAIT));
    WriterWaits(Step(s, t), t);
  }

  lemma WriterFinishes(s: State, t: nat)
    requires Inv(s) && t < |s.threads| && s.threads[t].Changing() && !s.threads[t].WAsleep? && MayWrite(s.iv)
    ensures Finishes(s, t, 6)
  {
    match s.threads[t]
    case WCas(_, _) => WriterRetries(s, t); FinishesSooner(s, t, 4, 6);
    case WLoad(_) => WriterLoads(s, t); FinishesSooner(s, t, 4, 6);
    case WWait(_) => WriterWaits(s, t); FinishesSooner(s, t, 5, 6);
    case WOr(_) => WriterOrs(s, t);
  }

  // A reader alone with no writer inside or waiting.

  lemma ReaderWins(s: State, t: nat)
    requires Inv(s) && t < |s.threads| && s.threads[t].RCas? && s.iv == s.threads[t].oldval
    ensures Finishes(s, t, 3)
  {
    StepKeepsInv(s, t);
    LeaverFinishes(Step(s, t), t);
  }

  /** A CAS with a stale value fails once and then wins. */
  lemma ReaderRetries(s: State, t: nat)
    requires Inv(s) && t < |s.threads| && s.threads[t].RCas? && MayRead(s.iv)
    ensures Finishes(s, t, 4)
  {
    if s.iv == s.threads[t].oldval {
      ReaderWins(s, t);
      FinishesSooner(s, t, 3, 4);
    } else {
      StepKeepsInv(s, t);
      ReaderWins(Step(s, t), t);
    }
  }

  lemma ReaderLoads(s: State, t: nat)
    requires Inv(s) && t < |s.threads| && s.threads[t].RLoad? && MayRead(s.iv)
    ensures Finishes(s, t, 4)
  {
    StepKeepsInv(s, t);
    ReaderWins(Step(s, t), t);
  }

  /** The word has changed since `oldval` was taken, so the kernel refuses the sleep. */
  lemma ReaderWaits(s: State, t: nat)
    requires Inv(s) && t < |s.threads| && s.threads[t].RWait? && MayRead(s.iv)
    ensures Finishes(s, t, 5)
  {
    StepKeepsInv(s, t);
    ReaderLoads(Step(s, t), t);
  }

  lemma ReaderOrs(s: State, t: nat)
    requires Inv(s) && t < |s.threads| && s.threads[t].ROr? && MayRead(s.iv)
    ensures Finishes(s, t, 6)
  {
    StepKeepsInv(s, t);
    OrRwaitIs(s.iv);
    Tests(s.iv);
    Tests(Or(s.iv, RWAIT));
    ReaderWaits(Step(s, t), t);
  }

  lemma ReaderFinishes(s: State, t: nat)
    requires Inv(s) && t < |s.threads| && MayRead(s.iv)
    requires s.threads[t].RLoad? || s.threads[t].RCas? || s.threads[t].ROr? || s.threads[t].RWait?
    ensures Finishes(s, t, 6)
  {
    match s.threads[t]
    case RCas(_, _) => ReaderRetries(s, t); FinishesSooner(s, t, 4, 6);
    case RLoad(_) => ReaderLoads(s, t); FinishesSooner(s, t, 4, 6);
    case RWait(_) => ReaderWaits(s, t); FinishesSooner(s, t, 5, 6);
    case ROr(_) => ReaderOrs(s, t);
  }

  lemma Pick(s: State, k: Kind) returns (t: nat)
    requires Count(s.threads, k) > 0
    ensures t < |s.threads| && Is(s.threads[t], k)
  {
    CountBound(s.threads, k);
    t :| 0 <= t < |s.threads| && Is(s.threads[t], k);
  }

  lemma CountNone(s: State, k: Kind, t: nat)
    requires Count(s.threads, k) == 0 && t < |s.threads|
    ensures !Is(s.threads[t], k)
  {
    CountBound(s.threads, k);
  }

  predicate SomeLeaver(s: State) {
    || Count(s.threads, UnlockWake) > 0 || Count(s.threads, DoneWake) > 0
    || Count(s.threads, InRead) > 0 || Count(s.threads, InWrite) > 0
  }

  lemma LeaverExists(s: State) returns (t: nat)
    requires Inv(s) && SomeLeaver(s)
    ensures Finishes(s, t, 6)
  {
    var k := if Count(s.threads, UnlockWake) > 0 then UnlockWake
             else if Count(s.threads, DoneWake) > 0 then DoneWake
             else if Count(s.threads, InRead) > 0 then InRead else InWrite;
    t := Pick(s, k);
    LeaverFinishes(s, t);
    FinishesSooner(s, t, 2, 6);
  }

  /** While a thread is busy, some busy thread can run to the end of its lock operation. */
  lemma SomebodyFinishes(s: State) returns (t: nat)
    requires Inv(s) && Count(s.threads, Busy) > 0
    ensures Finishes(s, t, 6)
  {
    Tests(s.iv);
    if SomeLeaver(s) {
      t := LeaverExists(s);
    } else if Count(s.threads, Changing) > 0 {
      t := Pick(s, Changing);
      CountNone(s, WriterAsleep, t);
      WriterFinishes(s, t);
    } else {
      t := Pick(s, Busy);
      forall k | k !in {Busy} && Count(s.threads, k) == 0 {
        CountNone(s, k, t);
      }
      ReaderFinishes(s, t);
    }
  }

  lemma {:induction false} Drain(s: State) returns (ts: seq<nat>)
    requires Inv(s)
    ensures CanSchedule(s, ts) && |ts| <= 6 * Count(s.threads, Busy)
    ensures Inv(Schedule(s, ts)) && Count(Schedule(s, ts).threads, Busy) == 0
    decreases Count(s.threads, Busy)
  {
    if Count(s.threads, Busy) == 0 {
      ts := [];
    } else {
      var t := SomebodyFinishes(s);
      var first := FinishOne(s, t, 6);
      var rest := Drain(Schedule(s, first));
      ScheduleAppend(s, first, rest);
      ts := first + rest;
    }
  }

  lemma NobodyBusy(s: State)
    requires Inv(s) && Count(s.threads, Busy) == 0
    ensures forall i :: 0 <= i < |s.threads| ==> s.threads[i].Idle?
    ensures MayRead(s.iv) && MayWrite(s.iv)
  {
    forall i | 0 <= i < |s.threads| ensures s.threads[i].Idle? {
      CountNone(s, Busy, i);
    }
    CountBound(s.threads, InRead);
    CountBound(s.threads, InWrite);
    CountBound(s.threads, Changing);
    assert Count(s.threads, InRead) == 0 && Count(s.threads, InWrite) == 0 && Count(s.threads, Changing) == 0;
    Tests(s.iv);
  }

  /** While a thread sleeps some other thread is awake and at work: it never happens that all are idle or asleep. */
  lemma DeadlockFree(s: State, path: seq<State>, acts: seq<Action>, k: nat, t: nat)
    requires Reachable(s, path, acts, k) && t < |s.threads| && s.threads[t].Asleep()
    ensures exists u :: 0 <= u < |s.threads| && Enabled(s, Run(u))
  {
    ReachableInv(s, path, acts, k);
    CountBound(s.threads, Busy);
    assert Is(s.threads[t], Busy);
    var u := SomebodyFinishes(s);
    assert Enabled(s, Run(u));
  }

  /** All threads can leave, after any run, and the word they leave behind shows a free lock. */
  lemma EverybodyCanFinish(s: State, path: seq<State>, acts: seq<Action>, k: nat) returns (ts: seq<nat>)
    requires Reachable(s, path, acts, k)
    ensures CanSchedule(s, ts) && |ts| <= 6 * |s.threads|
    ensures forall i :: 0 <= i < |Schedule(s, ts).threads| ==> Schedule(s, ts).threads[i].Idle?
    ensures MayRead(Schedule(s, ts).iv) && MayWrite(Schedule(s, ts).iv)
  {
    ReachableInv(s, path, acts, k);
    ts := Drain(s);
    CountBound(s.threads, Busy);
    NobodyBusy(Schedule(s, ts));
  }
}
