/** Every action keeps the invariant of the multi-reader lock, and what follows from it in every reachable state. */
module MrLockSafety {
  import opened Bits
  import opened MrLockWord
  import opened MrLock

  lemma InitInv(s: State)
    requires Init(s)
    ensures Inv(s)
  {
    forall k {
      CountBound(s.threads, k);
    }
  }

  /** Moving thread t to `pc` with a new word keeps the invariant when the counts still fit. */
  lemma Move(s: State, t: nat, iv: nat, pc: Pc)
    requires Inv(s) && t < |s.threads| && iv < WORD_SIZE / 2 && LocalOk(pc)
    requires Exclusion(Decode(iv), s.threads[t := pc]) && NoLostWake(Decode(iv), s.threads[t := pc])
    ensures Inv(Goto(s, t, iv, pc))
  {
  }

  lemma SpinOk(tries: nat, oldval: nat)
    requires oldval < WORD_SIZE / 2
    ensures LocalOk(ReaderSpin(tries, oldval)) && LocalOk(WriterSpin(tries, oldval))
  {
  }

  /** A reader that loaded the word or lost its CAS stays a reader outside the lock. */
  lemma KeepReaderSpin(s: State, t: nat, tries: nat)
    requires Inv(s) && t < |s.threads| && (s.threads[t].RLoad? || s.threads[t].RCas?)
    ensures Inv(Goto(s, t, s.iv, ReaderSpin(tries, s.iv)))
  {
    var pc := ReaderSpin(tries, s.iv);
    CountUpdateAll(s.threads, t, pc);
    SpinOk(tries, s.iv);
    Move(s, t, s.iv, pc);
  }

  lemma KeepWriterSpin(s: State, t: nat, tries: nat)
    requires Inv(s) && t < |s.threads| && (s.threads[t].WLoad? || s.threads[t].WCas?)
    ensures Inv(Goto(s, t, s.iv, WriterSpin(tries, s.iv)))
  {
    var pc := WriterSpin(tries, s.iv);
    CountUpdateAll(s.threads, t, pc);
    SpinOk(tries, s.iv);
    Move(s, t, s.iv, pc);
  }

  lemma KeepReaderWins(s: State, t: nat)
    requires Inv(s) && t < |s.threads| && s.threads[t].RCas? && s.iv == s.threads[t].oldval
    ensures Inv(Goto(s, t, ReaderWord(s.iv), RInside))
  {
    CountUpdateAll(s.threads, t, RInside);
    CountBound(s.threads, InRead);
    Tests(s.iv);
    ReaderWordIs(s.iv);
    Move(s, t, ReaderWord(s.iv), RInside);
  }

  lemma KeepWriterWins(s: State, t: nat)
    requires Inv(s) && t < |s.threads| && s.threads[t].WCas? && s.iv == s.threads[t].oldval
    ensures Inv(Goto(s, t, WriterWord(s.iv), WInside))
  {
    CountUpdateAll(s.threads, t, WInside);
    Tests(s.iv);
    WriterWordIs(s.iv);
    Move(s, t, WriterWord(s.iv), WInside);
  }

  lemma KeepReaderOr(s: State, t: nat)
    requires Inv(s) && t < |s.threads| && s.threads[t].ROr?
    ensures Inv(Goto(s, t, Or(s.iv, RWAIT), RWait(Or(s.threads[t].oldval, RWAIT))))
  {
    var o := s.threads[t].oldval;
    var pc := RWait(Or(o, RWAIT));
    CountUpdateAll(s.threads, t, pc);
    OrRwaitIs(s.iv);
    OrRwaitIs(o);
    Tests(o);
    Tests(Or(o, RWAIT));
    Move(s, t, Or(s.iv, RWAIT), pc);
  }

  lemma KeepWriterOr(s: State, t: nat)
    requires Inv(s) && t < |s.threads| && s.threads[t].WOr?
    ensures Inv(Goto(s, t, Or(s.iv, WWAIT), WWait(Or(s.threads[t].oldval, WWAIT))))
  {
    var o := s.threads[t].oldval;
    var pc := WWait(Or(o, WWAIT));
    CountUpdateAll(s.threads, t, pc);
    CountBound(s.threads, Changing);
    assert Is(s.threads[t], Changing);
    OrWwaitIs(s.iv);
    OrWwaitIs(o);
    Tests(o);
    Tests(Or(o, WWAIT));
    Move(s, t, Or(s.iv, WWAIT), pc);
  }

  /** The compare in the kernel is what makes a sleep safe: the word still has the flags the waker looks at. */
  lemma KeepReaderWait(s: State, t: nat)
    requires Inv(s) && t < |s.threads| && s.threads[t].RWait?
    ensures Inv(Goto(s, t, s.iv, if s.iv == s.threads[t].oldval then RAsleep else RLoad(0)))
  {
    var pc := if s.iv == s.threads[t].oldval then RAsleep else RLoad(0);
    CountUpdateAll(s.threads, t, pc);
    Tests(s.iv);
    Move(s, t, s.iv, pc);
  }

  lemma KeepWriterWait(s: State, t: nat)
    requires Inv(s) && t < |s.threads| && s.threads[t].WWait?
    ensures Inv(Goto(s, t, s.iv, if s.iv == s.threads[t].oldval then WAsleep else WLoad(0)))
  {
    var pc := if s.iv == s.threads[t].oldval then WAsleep else WLoad(0);
    CountUpdateAll(s.threads, t, pc);
    Tests(s.iv);
    Move(s, t, s.iv, pc);
  }

  lemma KeepUnlock(s: State, t: nat)
    requires Inv(s) && t < |s.threads| && s.threads[t].RInside?
    ensures Inv(Goto(s, t, UnlockWord(s.iv), if UnlockMustWake(s.iv) then RWake else Idle))
  {
    var pc := if UnlockMustWake(s.iv) then RWake else Idle;
    hide Add, And, Or, Decode, UnlockWord, MayRead, MayWrite;
    CountUpdateAll(s.threads, t, pc);
    CountUpdate(s.threads, t, pc, WriterAsleep);
    CountUpdate(s.threads, t, pc, UnlockWake);
    CountBound(s.threads, InRead);
    Tests(s.iv);
    UnlockWordIs(s.iv);
    Move(s, t, UnlockWord(s.iv), pc);
  }

  lemma KeepDone(s: State, t: nat)
    requires Inv(s) && t < |s.threads| && s.threads[t].WInside?
    ensures Inv(Goto(s, t, DoneWord(s.iv), if HasRwait(s.iv) then WWake else Idle))
  {
    var pc := if HasRwait(s.iv) then WWake else Idle;
    CountUpdateAll(s.threads, t, pc);
    CountBound(s.threads, InWrite);
    Tests(s.iv);
    DoneWordIs(s.iv);
    Move(s, t, DoneWord(s.iv), pc);
  }

  lemma KeepWake(s: State, t: nat)
    requires Inv(s) && t < |s.threads| && (s.threads[t].RWake? || s.threads[t].WWake?)
    ensures Inv(State(s.iv, WakeAll(s.threads)[t := Idle]))
  {
    var woken := WakeAll(s.threads);
    forall k {
      CountWakeAll(s.threads, k);
    }
    CountUpdateAll(woken, t, Idle);
  }

  lemma KeepStartChange(s: State, t: nat)
    requires Inv(s) && Enabled(s, StartChange(t))
    ensures Inv(Goto(s, t, s.iv, WLoad(0)))
  {
    CountUpdateAll(s.threads, t, WLoad(0));
    CountBound(s.threads, Changing);
    CountBound(s.threads, InWrite);
    assert forall i :: 0 <= i < |s.threads| ==> !s.threads[i].Exclusive();
    assert Count(s.threads, Changing) == 0 && Count(s.threads, InWrite) == 0;
    Move(s, t, s.iv, WLoad(0));
  }

  /** Entering `__rtld_mrlock_lock`, or a sleep that ends early, changes nobody's rights. */
  lemma KeepQuiet(s: State, t: nat, pc: Pc)
    requires Inv(s) && t < |s.threads|
    requires (s.threads[t].Idle? && pc == RLoad(0)) || (s.threads[t].Asleep() && pc == Awoken(s.threads[t]))
    ensures Inv(Goto(s, t, s.iv, pc))
  {
    CountUpdateAll(s.threads, t, pc);
    Move(s, t, s.iv, pc);
  }

  lemma StepKeepsInv(s: State, t: nat)
    requires Inv(s) && Enabled(s, Run(t))
    ensures Inv(Step(s, t))
  {
    match s.threads[t]
    case RLoad(tries) => KeepReaderSpin(s, t, tries);
    case RCas(tries, o) => if s.iv == o { KeepReaderWins(s, t); } else { KeepReaderSpin(s, t, tries); }
    case ROr(_) => KeepReaderOr(s, t);
    case RWait(_) => KeepReaderWait(s, t);
    case RInside => KeepUnlock(s, t);
    case RWake => KeepWake(s, t);
    case WLoad(tries) => KeepWriterSpin(s, t, tries);
    case WCas(tries, o) => if s.iv == o { KeepWriterWins(s, t); } else { KeepWriterSpin(s, t, tries); }
    case WOr(_) => KeepWriterOr(s, t);
    case WWait(_) => KeepWriterWait(s, t);
    case WInside => KeepDone(s, t);
    case WWake => KeepWake(s, t);
  }

  lemma ActionKeepsInv(s: State, a: Action)
    requires Inv(s) && Enabled(s, a)
    ensures Inv(Apply(s, a))
  {
    match a
    case Run(t) => StepKeepsInv(s, t);
    case StartLock(t) => KeepQuiet(s, t, RLoad(0));
    case StartChange(t) => KeepStartChange(s, t);
    case Interrupt(t) => KeepQuiet(s, t, Awoken(s.threads[t]));
  }

  /** The invariant holds in every state of every run. */
  lemma {:induction false} RunKeepsInv(path: seq<State>, acts: seq<Action>, k: nat)
    requires IsRun(path, acts) && k < |path| && Inv(path[0])
    ensures Inv(path[k])
  {
    if k > 0 {
      RunKeepsInv(path, acts, k - 1);
      ActionKeepsInv(path[k - 1], acts[k - 1]);
    }
  }

  // The theorems, about every state of every run that starts with the lock initialized.

  predicate Reachable(s: State, path: seq<State>, acts: seq<Action>, k: nat) {
    IsRun(path, acts) && Init(path[0]) && k < |path| && s == path[k]
  }

  lemma ReachableInv(s: State, path: seq<State>, acts: seq<Action>, k: nat)
    requires Reachable(s, path, acts, k)
    ensures Inv(s)
  {
    InitInv(path[0]);
    RunKeepsInv(path, acts, k);
  }

  function AtRead(threads: seq<Pc>): set<nat> {
    set t | 0 <= t < |threads| && threads[t].RInside?
  }

  lemma {:induction false} CountIsCardinality(threads: seq<Pc>)
    ensures Count(threads, InRead) == |AtRead(threads)|
  {
    if threads != [] {
      var last := |threads| - 1;
      CountIsCardinality(threads[..last]);
      if threads[last].RInside? {
        assert AtRead(threads) == AtRead(threads[..last]) + {last};
      } else {
        assert AtRead(threads) == AtRead(threads[..last]);
      }
    }
  }

  lemma CountPair(threads: seq<Pc>, i: nat, j: nat, k: Kind)
    requires i < |threads| && j < |threads| && i != j && Is(threads[i], k) && Is(threads[j], k)
    ensures Count(threads, k) >= 2
  {
    var rest := threads[i := Idle];
    CountUpdate(threads, i, Idle, k);
    CountBound(rest, k);
    assert Is(rest[j], k);
  }

  /** The word tells exactly who is inside, readers and the writer exclude each other, and `iv` never overflows. */
  lemma MutualExclusion(s: State, path: seq<State>, acts: seq<Action>, k: nat)
    requires Reachable(s, path, acts, k)
    ensures s.iv < WORD_SIZE / 2
    ensures Decode(s.iv).readers == |AtRead(s.threads)|
    ensures Decode(s.iv).writer <==> exists i :: 0 <= i < |s.threads| && s.threads[i].WInside?
    ensures forall i, j | 0 <= i < |s.threads| && 0 <= j < |s.threads| && i != j ::
      s.threads[i].WInside? ==> !s.threads[j].Inside()
  {
    ReachableInv(s, path, acts, k);
    CountIsCardinality(s.threads);
    CountBound(s.threads, InRead);
    CountBound(s.threads, InWrite);
    forall i, j | 0 <= i < |s.threads| && 0 <= j < |s.threads| && i != j && s.threads[i].WInside?
      ensures !s.threads[j].Inside()
    {
      if s.threads[j].WInside? {
        CountPair(s.threads, i, j, InWrite);
      }
    }
  }

  /** A sleeping thread has its wake-up coming: by the flag it set, or already owed by a thread that just left. */
  lemma NoLostWakeUp(s: State, path: seq<State>, acts: seq<Action>, k: nat, t: nat)
    requires Reachable(s, path, acts, k) && t < |s.threads|
    ensures var w := Decode(s.iv); s.threads[t].RAsleep? ==>
      (w.rwait && (w.writer || w.wwait)) || exists u :: 0 <= u < |s.threads| && s.threads[u].WWake?
    ensures var w := Decode(s.iv); s.threads[t].WAsleep? ==>
      (w.wwait && w.readers > 0) || exists u :: 0 <= u < |s.threads| && s.threads[u].RWake?
  {
    ReachableInv(s, path, acts, k);
    CountBound(s.threads, ReaderAsleep);
    CountBound(s.threads, DoneWake);
    CountBound(s.threads, WriterAsleep);
    CountBound(s.threads, UnlockWake);
    assert s.threads[t].RAsleep? == Is(s.threads[t], ReaderAsleep);
    assert s.threads[t].WAsleep? == Is(s.threads[t], WriterAsleep);
  }

  // Writer preference.

  predicate WriterWins(s: State, a: Action) {
    a.Run? && a.t < |s.threads| && s.threads[a.t].WCas? && s.iv == s.threads[a.t].oldval
  }

  /** A reader's CAS cannot win while WWAIT is set, so readers only leave. */
  lemma WwaitHoldsReadersOff(s: State, a: Action)
    requires Inv(s) && Enabled(s, a) && Decode(s.iv).wwait
    ensures AtRead(Apply(s, a).threads) <= AtRead(s.threads)
  {
    Tests(s.iv);
    assert LocalOk(s.threads[a.t]);
  }

  /** Once WWAIT is set only the writer's winning CAS clears it. */
  lemma WwaitStays(s: State, a: Action)
    requires Inv(s) && Enabled(s, a) && Decode(s.iv).wwait && !WriterWins(s, a)
    ensures Decode(Apply(s, a).iv).wwait
  {
    if a.Run? {
      Tests(s.iv);
      match s.threads[a.t]
      case ROr(_) => OrRwaitIs(s.iv);
      case WOr(_) => OrWwaitIs(s.iv);
      case RInside =>
        CountBound(s.threads, InRead);
        assert Is(s.threads[a.t], InRead);
        UnlockWordIs(s.iv);
      case WInside =>
        CountBound(s.threads, InWrite);
      case _ =>
    }
  }

  lemma SubsetSize<T>(a: set<T>, b: set<T>)
    requires a <= b
    ensures |a| <= |b|
  {
    assert b == a + (b - a);
  }

  /** From the setting of WWAIT until the writer gets in, the readers inside are among those already there. */
  lemma {:induction false} WriterPreference(path: seq<State>, acts: seq<Action>, i: nat, j: nat)
    requires IsRun(path, acts) && Init(path[0]) && i <= j < |path|
    requires Decode(path[i].iv).wwait && forall m :: i <= m < j ==> !WriterWins(path[m], acts[m])
    ensures Decode(path[j].iv).wwait
    ensures AtRead(path[j].threads) <= AtRead(path[i].threads)
    ensures Decode(path[j].iv).readers <= Decode(path[i].iv).readers
  {
    if i < j {
      WriterPreference(path, acts, i, j - 1);
      ReachableInv(path[j - 1], path, acts, j - 1);
      WwaitHoldsReadersOff(path[j - 1], acts[j - 1]);
      WwaitStays(path[j - 1], acts[j - 1]);
    }
    MutualExclusion(path[i], path, acts, i);
    MutualExclusion(path[j], path, acts, j);
    SubsetSize(AtRead(path[j].threads), AtRead(path[i].threads));
  }
}
