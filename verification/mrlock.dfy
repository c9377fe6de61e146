/**
  The multi-reader lock of the run-time linker as a transition system.

  Any number of threads share the lock word `iv`.  A thread's control point is a `Pc`; one `Run` action performs
  one atomic access to `iv` (load, CAS, or, exchange-and-add, compare-and-sleep, wake-all) and the computation on
  local variables that follows it.  The wake after an unlock is an action of its own.
*/
module MrLock {
  import opened Bits
  import opened MrLockWord

  datatype Pc =
    | Idle
    // __rtld_mrlock_lock
    | RLoad(tries: nat)
    | RCas(tries: nat, oldval: nat)
    | ROr(oldval: nat)
    | RWait(oldval: nat)
    | RAsleep
    | RInside
    // __rtld_mrlock_unlock, after the exchange-and-add
    | RWake
    // __rtld_mrlock_change
    | WLoad(tries: nat)
    | WCas(tries: nat, oldval: nat)
    | WOr(oldval: nat)
    | WWait(oldval: nat)
    | WAsleep
    | WInside
    // __rtld_mrlock_done, after the exchange-and-add
    | WWake
  {
    predicate Asleep() { RAsleep? || WAsleep? }

    /** In `__rtld_mrlock_change`, not yet through. */
    predicate Changing() { WLoad? || WCas? || WOr? || WWait? || WAsleep? }

    /** Trying to get, or having, the exclusive lock. */
    predicate Exclusive() { Changing() || WInside? }

    predicate Inside() { RInside? || WInside? }
  }

  datatype State = State(iv: nat, threads: seq<Pc>)

  datatype Action =
    | Run(t: nat)            // the next atomic access of thread t
    | StartLock(t: nat)      // an idle thread enters __rtld_mrlock_lock
    | StartChange(t: nat)    // an idle thread enters __rtld_mrlock_change
    | Interrupt(t: nat)      // the kernel ends a sleep without a wake

  /** The reader's loops after it got a value of the word in `oldval` during attempt `tries`. */
  function ReaderSpin(tries: nat, oldval: nat): Pc {
    if MayRead(oldval) then RCas(tries, oldval)
    else if tries + 1 < TRIES then RLoad(tries + 1)
    else if !HasRwait(oldval) then ROr(oldval)
    else RWait(oldval)
  }

  function WriterSpin(tries: nat, oldval: nat): Pc {
    if MayWrite(oldval) then WCas(tries, oldval)
    else if tries + 1 < TRIES then WLoad(tries + 1)
    else WOr(oldval)
  }

  function Awoken(pc: Pc): Pc {
    match pc
    case RAsleep => RLoad(0)
    case WAsleep => WLoad(0)
    case _ => pc
  }

  function WakeAll(threads: seq<Pc>): (r: seq<Pc>)
    ensures |r| == |threads|
    ensures forall i :: 0 <= i < |threads| ==> r[i] == Awoken(threads[i])
  {
    seq(|threads|, i requires 0 <= i < |threads| => Awoken(threads[i]))
  }

  /** There is only ever one thread trying to get the exclusive lock: the callers' obligation. */
  predicate Enabled(s: State, a: Action) {
    && a.t < |s.threads|
    && var pc := s.threads[a.t];
       match a
       case Run(_) => !pc.Idle? && !pc.Asleep()
       case StartLock(_) => pc.Idle?
       case StartChange(_) => pc.Idle? && forall i :: 0 <= i < |s.threads| ==> !s.threads[i].Exclusive()
       case Interrupt(_) => pc.Asleep()
  }

  function Goto(s: State, t: nat, iv: nat, pc: Pc): State
    requires t < |s.threads|
  {
    State(iv, s.threads[t := pc])
  }

  function Step(s: State, t: nat): State
    requires Enabled(s, Run(t))
  {
    var iv := s.iv;
    match s.threads[t]
    case RLoad(tries) => Goto(s, t, iv, ReaderSpin(tries, iv))
    case RCas(tries, oldval) =>
      if iv == oldval then Goto(s, t, ReaderWord(oldval), RInside) else Goto(s, t, iv, ReaderSpin(tries, iv))
    case ROr(oldval) => Goto(s, t, Or(iv, RWAIT), RWait(Or(oldval, RWAIT)))
    case RWait(oldval) => Goto(s, t, iv, if iv == oldval then RAsleep else RLoad(0))
    case RInside => Goto(s, t, UnlockWord(iv), if UnlockMustWake(iv) then RWake else Idle)
    case RWake => State(iv, WakeAll(s.threads)[t := Idle])
    case WLoad(tries) => Goto(s, t, iv, WriterSpin(tries, iv))
    case WCas(tries, oldval) =>
      if iv == oldval then Goto(s, t, WriterWord(oldval), WInside) else Goto(s, t, iv, WriterSpin(tries, iv))
    case WOr(oldval) => Goto(s, t, Or(iv, WWAIT), WWait(Or(oldval, WWAIT)))
    case WWait(oldval) => Goto(s, t, iv, if iv == oldval then WAsleep else WLoad(0))
    case WInside => Goto(s, t, DoneWord(iv), if HasRwait(iv) then WWake else Idle)
    case WWake => State(iv, WakeAll(s.threads)[t := Idle])
  }

  function Apply(s: State, a: Action): State
    requires Enabled(s, a)
  {
    match a
    case Run(t) => Step(s, t)
    case StartLock(t) => Goto(s, t, s.iv, RLoad(0))
    case StartChange(t) => Goto(s, t, s.iv, WLoad(0))
    case Interrupt(t) => Goto(s, t, s.iv, Awoken(s.threads[t]))
  }

  /** `_RTLD_MRLOCK_INITIALIZER`, with every thread outside. */
  predicate Init(s: State) {
    && s.iv == 0
    && |s.threads| < MAX_THREADS
    && forall i :: 0 <= i < |s.threads| ==> s.threads[i].Idle?
  }

  /** `path` lists the states before and after each of `acts`. */
  predicate IsRun(path: seq<State>, acts: seq<Action>) {
    && |path| == |acts| + 1
    && forall i :: 0 <= i < |acts| ==> Enabled(path[i], acts[i]) && path[i + 1] == Apply(path[i], acts[i])
  }

  // The invariant, in terms of how many threads are at each kind of control point.

  datatype Kind = InRead | InWrite | Changing | ReaderAsleep | WriterAsleep | UnlockWake | DoneWake | Busy

  predicate Is(pc: Pc, k: Kind) {
    match k
    case InRead => pc.RInside?
    case InWrite => pc.WInside?
    case Changing => pc.Changing()
    case ReaderAsleep => pc.RAsleep?
    case WriterAsleep => pc.WAsleep?
    case UnlockWake => pc.RWake?
    case DoneWake => pc.WWake?
    case Busy => !pc.Idle?
  }

  function Count(threads: seq<Pc>, k: Kind): nat {
    if threads == [] then 0
    else Count(threads[..|threads| - 1], k) + (if Is(threads[|threads| - 1], k) then 1 else 0)
  }

  /** What a thread knows about the word value it carries. */
  predicate LocalOk(pc: Pc) {
    match pc
    case RCas(_, o) => o < WORD_SIZE / 2 && MayRead(o)
    case ROr(o) => o < WORD_SIZE / 2 && !MayRead(o)
    case RWait(o) => o < WORD_SIZE / 2 && !MayRead(o) && HasRwait(o)
    case WCas(_, o) => o < WORD_SIZE / 2 && MayWrite(o)
    case WOr(o) => o < WORD_SIZE / 2 && !MayWrite(o)
    case WWait(o) => o < WORD_SIZE / 2 && !MayWrite(o) && Decode(o).wwait
    case _ => true
  }

  predicate AllLocalOk(threads: seq<Pc>) {
    forall i :: 0 <= i < |threads| ==> LocalOk(threads[i])
  }

  /** The word counts exactly the threads inside; readers and the writer exclude each other. */
  predicate Exclusion(w: Word, threads: seq<Pc>) {
    && w.readers == Count(threads, InRead)
    && (if w.writer then 1 else 0) == Count(threads, InWrite)
    && Count(threads, InWrite) + Count(threads, Changing) <= 1
    && (w.wwait ==> Count(threads, Changing) > 0)
    && (w.writer ==> w.readers == 0)
  }

  /** A sleeper will be woken: the flag that makes somebody wake it is set, or that wake is already owed. */
  predicate NoLostWake(w: Word, threads: seq<Pc>) {
    && (Count(threads, ReaderAsleep) > 0 ==> (w.rwait && (w.writer || w.wwait)) || Count(threads, DoneWake) > 0)
    && (Count(threads, WriterAsleep) > 0 ==> (w.wwait && w.readers > 0) || Count(threads, UnlockWake) > 0)
  }

  predicate Inv(s: State) {
    && |s.threads| < MAX_THREADS
    && s.iv < WORD_SIZE / 2
    && AllLocalOk(s.threads)
    && Exclusion(Decode(s.iv), s.threads)
    && NoLostWake(Decode(s.iv), s.threads)
  }

  // Counting.

  lemma {:induction false} CountUpdate(threads: seq<Pc>, t: nat, pc: Pc, k: Kind)
    requires t < |threads|
    ensures Count(threads[t := pc], k) + (if Is(threads[t], k) then 1 else 0)
         == Count(threads, k) + (if Is(pc, k) then 1 else 0)
  {
    var last := |threads| - 1;
    if t == last {
      assert threads[t := pc][..last] == threads[..last];
    } else {
      CountUpdate(threads[..last], t, pc, k);
      assert threads[t := pc][..last] == threads[..last][t := pc];
    }
  }

  lemma CountUpdateAll(threads: seq<Pc>, t: nat, pc: Pc)
    requires t < |threads|
    ensures forall k :: Count(threads[t := pc], k) + (if Is(threads[t], k) then 1 else 0)
                     == Count(threads, k) + (if Is(pc, k) then 1 else 0)
  {
    forall k {
      CountUpdate(threads, t, pc, k);
    }
  }

  /** A wake-all empties the sleeping kinds; woken writers are still changing. */
  lemma {:induction false} CountWakeAll(threads: seq<Pc>, k: Kind)
    ensures Count(WakeAll(threads), k) == if k == ReaderAsleep || k == WriterAsleep then 0 else Count(threads, k)
  {
    if threads != [] {
      var last := |threads| - 1;
      CountWakeAll(threads[..last], k);
      assert WakeAll(threads)[..last] == WakeAll(threads[..last]);
    }
  }

  lemma {:induction false} CountBound(threads: seq<Pc>, k: Kind)
    ensures Count(threads, k) <= |threads|
    ensures Count(threads, k) == |threads| <==> forall i :: 0 <= i < |threads| ==> Is(threads[i], k)
    ensures Count(threads, k) > 0 <==> exists i :: 0 <= i < |threads| && Is(threads[i], k)
  {
    if threads != [] {
      var last := |threads| - 1;
      CountBound(threads[..last], k);
      assert forall i :: 0 <= i < last ==> threads[..last][i] == threads[i];
    }
  }
}
