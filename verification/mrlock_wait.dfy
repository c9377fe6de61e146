/** How long a writer waits: once the readers inside have left, it gets in with a bounded number of accesses. */
module MrLockWait {
  import opened Bits
  import opened MrLockWord
  import opened MrLock
  import opened MrLockSafety

  /** Thread t is the writer, WWAIT is set, and no reader is inside any more. */
  predicate Awaited(s: State, t: nat) {
    && Inv(s) && t < |s.threads| && s.threads[t].Changing()
    && Decode(s.iv).wwait && Decode(s.iv).readers == 0
  }

  /** Accesses of the writer before its winning CAS, at most; the word changes once more if RWAIT is not set yet. */
  function Misses(iv: nat, pc: Pc): nat {
    var change := if HasRwait(iv) then 0 else 1;
    match pc
    case WCas(_, oldval) => if oldval == iv then change else 1 + change
    case WLoad(_) => 1 + change
    case WAsleep => 1 + change
    case WWait(_) => 2 + change
    case WOr(_) => 3 + change
    case _ => 0
  }

  lemma CountsAre(s: State, t: nat)
    requires Awaited(s, t)
    ensures forall u :: 0 <= u < |s.threads| ==> !s.threads[u].Inside()
    ensures forall u :: 0 <= u < |s.threads| && u != t ==> !s.threads[u].Changing()
    ensures LocalOk(s.threads[t]) && MayWrite(s.iv) && !MayRead(s.iv)
  {
    Tests(s.iv);
    CountBound(s.threads, InRead);
    CountBound(s.threads, InWrite);
    CountBound(s.threads, Changing);
    assert Is(s.threads[t], Changing);
    forall u | 0 <= u < |s.threads| ensures !s.threads[u].Inside() && (u != t ==> !s.threads[u].Changing()) {
      assert Is(s.threads[u], InRead) == s.threads[u].RInside? && Is(s.threads[u], InWrite) == s.threads[u].WInside?;
      if u != t && s.threads[u].Changing() { CountPair(s.threads, t, u, Changing); }
    }
  }

  /** The word an or leaves: the same if the flag was set. */
  lemma OrSame(iv: nat)
    ensures Decode(iv).rwait ==> Or(iv, RWAIT) == iv
    ensures Decode(iv).wwait ==> Or(iv, WWAIT) == iv
  {
    OrRwaitIs(iv);
    OrWwaitIs(iv);
    assert Encode(Decode(iv)) == iv && Encode(Decode(Or(iv, RWAIT))) == Or(iv, RWAIT);
    assert Encode(Decode(Or(iv, WWAIT))) == Or(iv, WWAIT);
  }

  /** An access of the writer that does not win brings it nearer to winning; the word does not change. */
  lemma OwnAccess(s: State, t: nat)
    requires Awaited(s, t) && Enabled(s, Run(t)) && !WriterWins(s, Run(t))
    ensures Step(s, t).iv == s.iv && Step(s, t).threads == s.threads[t := Step(s, t).threads[t]]
    ensures Step(s, t).threads[t].Changing() && !Step(s, t).threads[t].WAsleep?
    ensures Misses(s.iv, Step(s, t).threads[t]) + 1 <= Misses(s.iv, s.threads[t])
  {
    CountsAre(s, t);
    OrSame(s.iv);
    Tests(s.iv);
  }

  /** Any other action: it may set RWAIT, once, and it may wake the writer. */
  lemma OtherAction(s: State, a: Action, t: nat)
    requires Awaited(s, t) && Enabled(s, a) && a != Run(t)
    ensures var s' := Apply(s, a);
      && |s'.threads| == |s.threads|
      && (s'.threads[t] == s.threads[t] || s'.threads[t] == Awoken(s.threads[t]))
      && (s'.iv == s.iv || (!HasRwait(s.iv) && s'.iv == Or(s.iv, RWAIT)))
  {
    CountsAre(s, t);
    OrSame(s.iv);
    Tests(s.iv);
    assert LocalOk(s.threads[a.t]);
  }

  /** Nothing but an access of the writer uses up its misses. */
  lemma ActionMisses(s: State, a: Action, t: nat)
    requires Awaited(s, t) && Enabled(s, a) && !WriterWins(s, a)
    ensures Awaited(Apply(s, a), t)
    ensures
      Misses(Apply(s, a).iv, Apply(s, a).threads[t]) + (if a == Run(t) then 1 else 0) <= Misses(s.iv, s.threads[t])
    ensures Apply(s, a).threads[t].WAsleep? ==> s.threads[t].WAsleep?
  {
    hide Inv, LocalOk, Step;
    ActionKeepsInv(s, a);
    if a == Run(t) {
      OwnAccess(s, t);
    } else {
      OtherAction(s, a, t);
      OrRwaitIs(s.iv);
      AfterOr(s);
    }
  }

  lemma AfterOr(s: State)
    requires Inv(s)
    ensures HasRwait(Or(s.iv, RWAIT))
  {
    OrRwaitIs(s.iv);
    Tests(Or(s.iv, RWAIT));
  }

  /** Accesses of thread t among the actions from i to j. */
  function Accesses(acts: seq<Action>, t: nat, i: nat, j: nat): nat
    requires i <= j <= |acts|
  {
    if i == j then 0 else Accesses(acts, t, i, j - 1) + (if acts[j - 1] == Run(t) then 1 else 0)
  }

  lemma {:induction false} MissesOver(path: seq<State>, acts: seq<Action>, t: nat, i: nat, j: nat)
    requires IsRun(path, acts) && i <= j < |path| && Awaited(path[i], t)
    requires forall m :: i <= m < j ==> !WriterWins(path[m], acts[m])
    ensures Awaited(path[j], t)
    ensures Misses(path[j].iv, path[j].threads[t]) + Accesses(acts, t, i, j) <= Misses(path[i].iv, path[i].threads[t])
    ensures path[j].threads[t].WAsleep? ==> path[i].threads[t].WAsleep?
    decreases j
  {
    hide Inv, Misses, Apply, Enabled, Awaited;
    if i < j {
      MissesOver(path, acts, t, i, j - 1);
      ActionMisses(path[j - 1], acts[j - 1], t);
    }
  }

  /**
    Over every schedule: from a state in which WWAIT is set and the readers have left, the writer makes at most four
    accesses before the one that wins, whatever new readers do.  It does not go to sleep again, and if it is still
    asleep somebody owes it a wake.
  */
  lemma WriterWaitBounded(path: seq<State>, acts: seq<Action>, t: nat, i: nat, j: nat)
    requires IsRun(path, acts) && Init(path[0]) && i <= j < |path|
    requires t < |path[i].threads| && path[i].threads[t].Changing()
    requires Decode(path[i].iv).wwait && Decode(path[i].iv).readers == 0
    requires forall m :: i <= m < j ==> !WriterWins(path[m], acts[m])
    ensures Accesses(acts, t, i, j) <= 4
    ensures t < |path[j].threads| && path[j].threads[t].Changing()
    ensures path[j].threads[t].WAsleep? ==> path[i].threads[t].WAsleep?
    ensures path[j].threads[t].WAsleep? ==> exists u :: 0 <= u < |path[j].threads| && path[j].threads[u].RWake?
  {
    hide Inv;
    ReachableInv(path[i], path, acts, i);
    MissesOver(path, acts, t, i, j);
    NoLostWakeUp(path[j], path, acts, j, t);
  }
}
