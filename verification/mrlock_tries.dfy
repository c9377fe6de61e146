/** What the attempts come to: a thread that the word has kept out TRIES times announces itself and waits. */
module MrLockTries {
  import opened Bits
  import opened MrLockWord
  import opened MrLock
  import opened MrLockSafety
  import opened MrLockWait

  /** The word keeps out the writer, or a reader. */
  predicate KeepsOut(iv: nat, writer: bool) {
    var w := Decode(iv);
    if writer then w.readers > 0 else w.writer || w.wwait
  }

  /** Accesses of thread t among the actions from i to j at which the word kept it out. */
  function Misfits(path: seq<State>, acts: seq<Action>, t: nat, writer: bool, i: nat, j: nat): nat
    requires i <= j <= |acts| < |path|
  {
    if i == j then 0
    else
      Misfits(path, acts, t, writer, i, j - 1)
        + (if acts[j - 1] == Run(t) && KeepsOut(path[j - 1].iv, writer) then 1 else 0)
  }

  predicate ReaderWins(s: State, a: Action) {
    a.Run? && a.t < |s.threads| && s.threads[a.t].RCas? && s.iv == s.threads[a.t].oldval
  }

  predicate Wins(s: State, a: Action, writer: bool) { if writer then WriterWins(s, a) else ReaderWins(s, a) }

  /** The thread is in one of its attempts, with n of them behind it. */
  predicate Attempting(pc: Pc, writer: bool, n: nat) {
    if writer then (pc.WLoad? || pc.WCas?) && pc.tries == n else (pc.RLoad? || pc.RCas?) && pc.tries == n
  }

  /** What a thread does about the last value v that kept it out. */
  function GivesUp(v: nat, writer: bool): Pc {
    if writer then WOr(v) else if Decode(v).rwait then RWait(v) else ROr(v)
  }

  /** One access during the attempts: a word that lets the thread in is what its next access, a CAS, expects. */
  lemma AttemptStep(s: State, t: nat, writer: bool, n: nat)
    requires Inv(s) && Enabled(s, Run(t)) && Attempting(s.threads[t], writer, n) && n < TRIES
    requires !Wins(s, Run(t), writer)
    ensures var pc := Step(s, t).threads[t];
      if !KeepsOut(s.iv, writer) then pc == (if writer then WCas(n, s.iv) else RCas(n, s.iv))
      else if n + 1 < TRIES then Attempting(pc, writer, n + 1)
      else pc == GivesUp(s.iv, writer)
    ensures Step(s, t).iv == s.iv
  {
    Tests(s.iv);
  }

  /** Others do not move a thread that is awake. */
  lemma OthersLeave(s: State, a: Action, t: nat)
    requires Enabled(s, a) && a != Run(t) && t < |s.threads| && !s.threads[t].Idle? && !s.threads[t].Asleep()
    ensures t < |Apply(s, a).threads| && Apply(s, a).threads[t] == s.threads[t]
  {
  }

  lemma {:induction false} Attempts(path: seq<State>, acts: seq<Action>, t: nat, writer: bool, i: nat, j: nat)
    requires IsRun(path, acts) && Init(path[0]) && i <= j < |path|
    requires t < |path[i].threads| && path[i].threads[t] == if writer then WLoad(0) else RLoad(0)
    requires forall m :: i <= m < j ==> !(acts[m] == Run(t) && Wins(path[m], acts[m], writer))
    requires Misfits(path, acts, t, writer, i, j) < TRIES
    ensures t < |path[j].threads| && Attempting(path[j].threads[t], writer, Misfits(path, acts, t, writer, i, j))
    decreases j
  {
    hide Inv, Init, Enabled, Apply, KeepsOut, Wins;
    if i < j {
      var s, a := path[j - 1], acts[j - 1];
      Attempts(path, acts, t, writer, i, j - 1);
      ReachableInv(s, path, acts, j - 1);
      assert Enabled(s, a) && path[j] == Apply(s, a);
      if a == Run(t) {
        AttemptStep(s, t, writer, Misfits(path, acts, t, writer, i, j - 1));
        ApplyRun(s, t);
      } else {
        OthersLeave(s, a, t);
      }
    }
  }

  lemma ApplyRun(s: State, t: nat)
    requires Enabled(s, Run(t))
    ensures Apply(s, Run(t)) == Step(s, t) && |Step(s, t).threads| == |s.threads|
  {
  }

  // After the attempts.

  /** Action l is the next access of thread t after action k. */
  predicate NextAccess(acts: seq<Action>, t: nat, k: nat, l: nat) {
    k < l < |acts| && acts[l] == Run(t) && forall m :: k < m < l ==> acts[m] != Run(t)
  }

  lemma {:induction false} WaitsFor(path: seq<State>, acts: seq<Action>, t: nat, k: nat, l: nat)
    requires IsRun(path, acts) && k < l < |path| && forall m :: k < m < l ==> acts[m] != Run(t)
    requires var s := path[k + 1]; t < |s.threads| && !s.threads[t].Idle? && !s.threads[t].Asleep()
    ensures t < |path[l].threads| && path[l].threads[t] == path[k + 1].threads[t]
    decreases l
  {
    hide Enabled, Apply;
    if k + 1 < l {
      WaitsFor(path, acts, t, k, l - 1);
      assert Enabled(path[l - 1], acts[l - 1]) && path[l] == Apply(path[l - 1], acts[l - 1]);
      OthersLeave(path[l - 1], acts[l - 1], t);
    }
  }

  /** Action k is the access at which the word keeps thread t out for the last time before it gives up. */
  predicate LastMisfit(path: seq<State>, acts: seq<Action>, t: nat, writer: bool, i: nat, k: nat)
    requires |acts| < |path|
  {
    && i <= k < |acts| && acts[k] == Run(t)
    && t < |path[i].threads| && path[i].threads[t] == (if writer then WLoad(0) else RLoad(0))
    && (forall m :: i <= m < k ==> !(acts[m] == Run(t) && Wins(path[m], acts[m], writer)))
    && KeepsOut(path[k].iv, writer) && Misfits(path, acts, t, writer, i, k) == TRIES - 1
  }

  lemma AfterLast(path: seq<State>, acts: seq<Action>, t: nat, writer: bool, i: nat, k: nat)
    requires IsRun(path, acts) && Init(path[0]) && LastMisfit(path, acts, t, writer, i, k)
    ensures t < |path[k + 1].threads| && path[k + 1].threads[t] == GivesUp(path[k].iv, writer)
  {
    hide Inv, Init, Enabled, Apply, KeepsOut, Step;
    Attempts(path, acts, t, writer, i, k);
    ReachableInv(path[k], path, acts, k);
    assert Enabled(path[k], acts[k]) && path[k + 1] == Apply(path[k], acts[k]);
    NoWin(path[k], t, writer);
    AttemptStep(path[k], t, writer, TRIES - 1);
    ApplyRun(path[k], t);
  }

  /** A word that keeps a thread out does not let its CAS win. */
  lemma NoWin(s: State, t: nat, writer: bool)
    requires Inv(s) && KeepsOut(s.iv, writer)
    ensures !Wins(s, Run(t), writer)
  {
    Tests(s.iv);
    if t < |s.threads| { assert LocalOk(s.threads[t]); }
  }

  lemma OrAccess(s: State, t: nat)
    requires Inv(s) && Enabled(s, Run(t))
    ensures s.threads[t].WOr? ==> Decode(Step(s, t).iv) == Decode(s.iv).(wwait := true)
    ensures s.threads[t].ROr? ==> Decode(Step(s, t).iv) == Decode(s.iv).(rwait := true)
  {
    OrWwaitIs(s.iv);
    OrRwaitIs(s.iv);
  }

  /**
    However the others interfere, a writer that the readers have kept out for the last of its TRIES times sets WWAIT by
    its next access, whatever the word is by then.  The access after that puts it to sleep if the word is what it last
    saw, with WWAIT, and makes it start again otherwise.
  */
  lemma WriterAnnounces(path: seq<State>, acts: seq<Action>, t: nat, i: nat, k: nat, l: nat, q: nat)
    requires IsRun(path, acts) && Init(path[0]) && LastMisfit(path, acts, t, true, i, k)
    requires NextAccess(acts, t, k, l) && NextAccess(acts, t, l, q)
    ensures Decode(path[l + 1].iv) == Decode(path[l].iv).(wwait := true)
    ensures path[q + 1].iv == path[q].iv && t < |path[q + 1].threads|
    ensures path[q + 1].threads[t] == if path[q].iv == Or(path[k].iv, WWAIT) then WAsleep else WLoad(0)
  {
    hide Inv, Init, Enabled, Apply, KeepsOut, Or;
    AfterLast(path, acts, t, true, i, k);
    WaitsFor(path, acts, t, k, l);
    assert Enabled(path[l], acts[l]) && path[l + 1] == Apply(path[l], acts[l]);
    ReachableInv(path[l], path, acts, l);
    OrAccess(path[l], t);
    ApplyRun(path[l], t);
    WaitsFor(path, acts, t, l, q);
    assert Enabled(path[q], acts[q]) && path[q + 1] == Apply(path[q], acts[q]);
    ApplyRun(path[q], t);
  }

  /** The same for a reader kept out by the writer, or a waiting writer, with RWAIT; it sets it only if it saw none. */
  lemma ReaderAnnounces(path: seq<State>, acts: seq<Action>, t: nat, i: nat, k: nat, l: nat, q: nat)
    requires IsRun(path, acts) && Init(path[0]) && LastMisfit(path, acts, t, false, i, k)
    requires NextAccess(acts, t, k, l) && NextAccess(acts, t, l, q)
    ensures t < |path[l + 1].threads|
    ensures Decode(path[k].iv).rwait ==>
      && path[l + 1].iv == path[l].iv
      && path[l + 1].threads[t] == if path[l].iv == path[k].iv then RAsleep else RLoad(0)
    ensures !Decode(path[k].iv).rwait ==>
      && Decode(path[l + 1].iv) == Decode(path[l].iv).(rwait := true)
      && path[q + 1].iv == path[q].iv && t < |path[q + 1].threads|
      && path[q + 1].threads[t] == if path[q].iv == Or(path[k].iv, RWAIT) then RAsleep else RLoad(0)
  {
    hide Inv, Init, Enabled, Apply, KeepsOut, Or;
    AfterLast(path, acts, t, false, i, k);
    WaitsFor(path, acts, t, k, l);
    assert Enabled(path[l], acts[l]) && path[l + 1] == Apply(path[l], acts[l]);
    ReachableInv(path[l], path, acts, l);
    OrAccess(path[l], t);
    ApplyRun(path[l], t);
    if !Decode(path[k].iv).rwait {
      WaitsFor(path, acts, t, l, q);
      assert Enabled(path[q], acts[q]) && path[q + 1] == Apply(path[q], acts[q]);
      ApplyRun(path[q], t);
    }
  }

  // Leaving.

  /** A reader wakes everybody exactly if it is the last and a writer waits; the writer, exactly if a reader waits. */
  lemma WakesExactly(s: State, t: nat)
    requires Inv(s) && t < |s.threads| && s.threads[t].Inside()
    ensures var w := Decode(s.iv); var pc := Step(s, t).threads[t];
      if s.threads[t].RInside? then pc == (if w.readers == 1 && w.wwait then RWake else Idle)
      else pc == (if w.rwait then WWake else Idle)
  {
    Tests(s.iv);
  }

  /** After the wake nobody sleeps, and everybody who slept begins again. */
  lemma WakesAll(s: State, t: nat)
    requires t < |s.threads| && (s.threads[t].RWake? || s.threads[t].WWake?)
    ensures Step(s, t).iv == s.iv && |Step(s, t).threads| == |s.threads| && Step(s, t).threads[t] == Idle
    ensures forall u :: 0 <= u < |s.threads| && u != t ==>
      Step(s, t).threads[u] ==
        if s.threads[u].RAsleep? then RLoad(0) else if s.threads[u].WAsleep? then WLoad(0) else s.threads[u]
  {
  }

  // A writer that finds readers inside at each of its accesses.

  /** The writer after n such accesses. */
  predicate Tried(s: State, t: nat, n: nat) {
    && t < |s.threads|
    && var pc := s.threads[t];
       if n < TRIES then pc == WLoad(n)
       else if n == TRIES then pc.WOr?
       else pc.Changing() && Decode(s.iv).wwait
  }

  lemma TriedOwn(s: State, t: nat, n: nat)
    requires Inv(s) && Enabled(s, Run(t)) && Tried(s, t, n) && Decode(s.iv).readers > 0
    ensures Tried(Step(s, t), t, n + 1)
  {
    hide AllLocalOk, Exclusion, NoLostWake, Or;
    Tests(s.iv);
    OrAccess(s, t);
    if n > TRIES {
      NoWin(s, t, true);
      WwaitStays(s, Run(t));
    }
  }

  lemma TriedOther(s: State, a: Action, t: nat, n: nat)
    requires Inv(s) && Enabled(s, a) && a != Run(t) && Tried(s, t, n)
    ensures Tried(Apply(s, a), t, n)
  {
    hide Inv, Or;
    if n > TRIES {
      OneChanging(s, a, t);
      WwaitStays(s, a);
    }
  }

  /** Only the thread that has called `__rtld_mrlock_change` can win the exclusive lock. */
  lemma OneChanging(s: State, a: Action, t: nat)
    requires Inv(s) && t < |s.threads| && s.threads[t].Changing() && a != Run(t)
    ensures !WriterWins(s, a)
  {
    if WriterWins(s, a) {
      assert Is(s.threads[t], Changing) && Is(s.threads[a.t], Changing);
      CountPair(s.threads, t, a.t, Changing);
    }
  }

  /**
    Over every schedule: a writer that finds readers inside at each of its accesses has set WWAIT after TRIES loads and
    one more access, and it stays set; then `WriterPreference` holds new readers off.
  */
  lemma {:induction false} WriterGetsPreference(path: seq<State>, acts: seq<Action>, t: nat, i: nat, j: nat)
    requires IsRun(path, acts) && Init(path[0]) && i <= j < |path|
    requires t < |path[i].threads| && path[i].threads[t] == WLoad(0)
    requires forall m :: i <= m < j && acts[m] == Run(t) ==> Decode(path[m].iv).readers > 0
    ensures Tried(path[j], t, Accesses(acts, t, i, j))
    ensures Accesses(acts, t, i, j) > TRIES ==> Decode(path[j].iv).wwait
    decreases j
  {
    hide Inv, Init, Enabled, Apply, Tried;
    if i < j {
      var s, a := path[j - 1], acts[j - 1];
      WriterGetsPreference(path, acts, t, i, j - 1);
      ReachableInv(s, path, acts, j - 1);
      assert Enabled(s, a) && path[j] == Apply(s, a);
      if a == Run(t) {
        ApplyRun(s, t);
        TriedOwn(s, t, Accesses(acts, t, i, j - 1));
      } else {
        TriedOther(s, a, t, Accesses(acts, t, i, j - 1));
      }
    } else {
      TriedStart(path[i], t);
    }
    TriedMeans(path[j], t, Accesses(acts, t, i, j));
  }

  lemma TriedStart(s: State, t: nat)
    requires t < |s.threads| && s.threads[t] == WLoad(0)
    ensures Tried(s, t, 0)
  {
  }

  lemma TriedMeans(s: State, t: nat, n: nat)
    requires Tried(s, t, n)
    ensures n > TRIES ==> Decode(s.iv).wwait
  {
  }
}
