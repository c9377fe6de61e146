/**
  The macros of rtld-lowlevel.h with their own loops, run by one thread while others interfere before each of its
  atomic accesses.  Whatever the others do, the macros perform steps of the transition system, and return only
  with what they promise.  The other threads' actions come from a finite list, so that a run in which they never
  let this thread through ends with `cut`.
*/
module MrLockMacros {
  import opened Bits
  import opened MrLockWord
  import opened MrLock
  import opened MrLockSafety

  predicate CanDo(s: State, acts: seq<Action>)
    decreases |acts|, 0
  {
    acts == [] || (CanDo(s, acts[..|acts| - 1]) && Enabled(After(s, acts[..|acts| - 1]), acts[|acts| - 1]))
  }

  function After(s: State, acts: seq<Action>): State
    requires CanDo(s, acts)
    decreases |acts|, 1
  {
    if acts == [] then s else Apply(After(s, acts[..|acts| - 1]), acts[|acts| - 1])
  }

  lemma OneMore(s: State, acts: seq<Action>, a: Action)
    requires CanDo(s, acts) && Enabled(After(s, acts), a)
    ensures CanDo(s, acts + [a]) && After(s, acts + [a]) == Apply(After(s, acts), a)
  {
    assert (acts + [a])[..|acts|] == acts;
    hide Enabled, Apply;
  }

  lemma RunMore(path: seq<State>, acts: seq<Action>, a: Action)
    requires IsRun(path, acts) && Enabled(path[|acts|], a)
    ensures IsRun(path + [Apply(path[|acts|], a)], acts + [a])
  {
    hide Apply, Enabled;
  }

  /** The states along the way form a run. */
  lemma {:induction false} Along(s: State, acts: seq<Action>) returns (path: seq<State>)
    requires CanDo(s, acts)
    ensures IsRun(path, acts) && path[0] == s && path[|acts|] == After(s, acts)
    decreases |acts|
  {
    if acts == [] {
      path := [s];
    } else {
      var front := acts[..|acts| - 1];
      var before := Along(s, front);
      path := before + [After(s, acts)];
      hide Apply, Enabled, IsRun;
      RunMore(before, front, acts[|front|]);
      assert front + [acts[|front|]] == acts;
    }
  }

  class Machine {
    var iv: nat                      // the lock word
    var others: seq<seq<Action>>     // what the other threads try before each further access of this one
    const start: State               // the run so far: where it began, the actions, where it is now
    var acts: seq<Action>
    var now: State

    constructor (start: State, others: seq<seq<Action>>)
      ensures Valid() && now == start && this.others == others
    {
      this.iv, this.others, this.start, this.acts, this.now := start.iv, others, start, [], start;
    }

    ghost predicate Valid()
      reads this
    {
      && CanDo(start, acts)
      && now == After(start, acts)
      && now.iv == iv
    }

    /** This object has only gone on with the run it had. */
    twostate predicate Extends()
      reads this
    {
      && Valid()
      && old(acts) <= acts
      && |others| <= |old(others)|
    }

    ghost predicate At(t: nat, pc: Pc)
      reads this
    {
      Valid() && t < |now.threads| && now.threads[t] == pc
    }

    /** Everything proved of reachable states holds of this object. */
    lemma IsReachable() returns (path: seq<State>)
      requires Valid() && Init(start)
      ensures Reachable(now, path, acts, |acts|)
    {
      path := Along(start, acts);
    }

    method Append(a: Action)
      requires Valid() && Enabled(now, a)
      modifies this`now, this`acts, this`iv
      ensures Extends() && now == Apply(old(now), a)
    {
      hide CanDo, After, Enabled, Apply;
      OneMore(start, acts, a);
      now, acts := Apply(now, a), acts + [a];
      iv := now.iv;
    }

    lemma OthersMove(s: State, a: Action, t: nat)
      requires Enabled(s, a) && t < |s.threads| && (a.t != t || a.Interrupt?)
      ensures |Apply(s, a).threads| == |s.threads|
      ensures Apply(s, a).threads[t] == s.threads[t] || Apply(s, a).threads[t] == Awoken(s.threads[t])
    {
    }

    /** The other threads run; thread t, unless it sleeps, stays where it is. */
    method Interfere(t: nat)
      requires Valid() && others != [] && t < |now.threads|
      modifies this
      ensures Extends() && |others| < |old(others)| && t < |now.threads|
      ensures now.threads[t] == old(now.threads[t]) || now.threads[t] == Awoken(old(now.threads[t]))
    {
      var batch := others[0];
      others := others[1..];
      for i := 0 to |batch|
        invariant Extends() && |others| < |old(others)| && t < |now.threads|
        invariant now.threads[t] == old(now.threads[t]) || now.threads[t] == Awoken(old(now.threads[t]))
      {
        if (batch[i].t != t || batch[i].Interrupt?) && Enabled(now, batch[i]) {
          OthersMove(now, batch[i], t);
          Append(batch[i]);
        }
      }
    }

    method Access(t: nat) returns (cut: bool)
      requires Valid() && t < |now.threads| && !now.threads[t].Asleep()
      modifies this
      ensures Extends()
      ensures if cut then others == [] else |others| < |old(others)|
      ensures At(t, old(now.threads[t]))
    {
      cut := others == [];
      if !cut { Interfere(t); }
    }

    // The atomic primitives on the word, each followed by the record of the step it was.

    method Commit(t: nat)
      requires CanDo(start, acts) && now == After(start, acts)
      requires Enabled(now, Run(t)) && iv == Step(now, t).iv
      modifies this`now, this`acts
      ensures Valid() && now == Step(old(now), t) && acts == old(acts) + [Run(t)]
    {
      hide CanDo, After, Enabled, Step;
      OneMore(start, acts, Run(t));
      now, acts := Step(now, t), acts + [Run(t)];
    }

    method Load(t: nat) returns (cut: bool, v: nat)
      requires Valid() && t < |now.threads| && (now.threads[t].RLoad? || now.threads[t].WLoad?)
      modifies this
      ensures Extends()
      ensures if cut then others == [] else |others| < |old(others)|
      ensures !cut ==> At(t, var pc := old(now.threads[t]);
        if pc.RLoad? then ReaderSpin(pc.tries, v) else WriterSpin(pc.tries, v))
    {
      v := 0;
      cut := Access(t);
      if !cut {
        v := iv;
        Commit(t);
      }
    }

    method CompareAndExchange(t: nat, newval: nat, oldval: nat) returns (cut: bool, ret: nat)
      requires Valid() && t < |now.threads| && (now.threads[t].RCas? || now.threads[t].WCas?)
      requires now.threads[t].oldval == oldval
      requires newval == if now.threads[t].RCas? then ReaderWord(oldval) else WriterWord(oldval)
      modifies this
      ensures Extends()
      ensures if cut then others == [] else |others| < |old(others)|
      ensures !cut ==> At(t, var pc := old(now.threads[t]);
        if pc.RCas? then if ret == oldval then RInside else ReaderSpin(pc.tries, ret)
        else if ret == oldval then WInside else WriterSpin(pc.tries, ret))
    {
      ret := 0;
      cut := Access(t);
      if !cut {
        ret := iv;
        if ret == oldval { iv := newval; }
        Commit(t);
      }
    }

    method AtomicOr(t: nat, mask: nat) returns (cut: bool)
      requires Valid() && t < |now.threads| && (now.threads[t].ROr? || now.threads[t].WOr?)
      requires mask == if now.threads[t].ROr? then RWAIT else WWAIT
      modifies this
      ensures Extends()
      ensures if cut then others == [] else |others| < |old(others)|
      ensures !cut ==> At(t, var pc := old(now.threads[t]);
        if pc.ROr? then RWait(Or(pc.oldval, RWAIT)) else WWait(Or(pc.oldval, WWAIT)))
    {
      cut := Access(t);
      if !cut {
        iv := Or(iv, mask);
        Commit(t);
      }
    }

    method ExchangeAndAdd(t: nat, delta: int) returns (cut: bool, ret: nat)
      requires Valid() && t < |now.threads| && now.threads[t].Inside()
      requires delta == 0 - if now.threads[t].RInside? then INC else WRITER
      modifies this
      ensures Extends()
      ensures if cut then others == [] else |others| < |old(others)|
      ensures !cut ==> At(t, if old(now.threads[t].RInside?) then if UnlockMustWake(ret) then RWake else Idle
                             else if HasRwait(ret) then WWake else Idle)
    {
      ret := 0;
      cut := Access(t);
      if !cut {
        ret := iv;
        iv := Add(iv, delta);
        Commit(t);
      }
    }

    method FutexWake(t: nat) returns (cut: bool)
      requires At(t, RWake) || At(t, WWake)
      modifies this
      ensures Extends()
      ensures if cut then others == [] else At(t, Idle)
    {
      cut := Access(t);
      if !cut { Commit(t); }
    }

    /** Back at the start of the loop, by a mismatch or by a wake-up. */
    method FutexWait(t: nat, oldval: nat) returns (cut: bool)
      requires At(t, RWait(oldval)) || At(t, WWait(oldval))
      modifies this
      ensures Extends()
      ensures if cut then others == [] else |others| < |old(others)|
      ensures !cut ==> At(t, if old(At(t, RWait(oldval))) then RLoad(0) else WLoad(0))
    {
      hide CanDo, After, Apply;
      cut := Access(t);
      if cut { return; }
      Commit(t);
      while now.threads[t].Asleep()
        invariant Extends() && |others| < |old(others)| && t < |now.threads|
        invariant now.threads[t] in if old(At(t, RWait(oldval))) then {RAsleep, RLoad(0)} else {WAsleep, WLoad(0)}
        decreases |others|
      {
        if others == [] { return true; }
        Interfere(t);
      }
    }

    // The macros.

    method Unlock(t: nat) returns (cut: bool)
      requires At(t, RInside)
      modifies this
      ensures Extends()
      ensures if cut then others == [] else At(t, Idle)
    {
      var oldval;
      cut, oldval := ExchangeAndAdd(t, 0 - INC);
      if !cut && UnlockMustWake(oldval) {
        cut := FutexWake(t);
      }
    }

    method Done(t: nat) returns (cut: bool)
      requires At(t, WInside)
      modifies this
      ensures Extends()
      ensures if cut then others == [] else At(t, Idle)
    {
      var oldval;
      cut, oldval := ExchangeAndAdd(t, 0 - WRITER);
      if !cut && HasRwait(oldval) {
        cut := FutexWake(t);
      }
    }

    /** One attempt: load the word and retry the CAS while it allows. */
    method ReaderAttempt(t: nat, tries: nat) returns (cut: bool, won: bool, oldval: nat)
      requires At(t, RLoad(tries)) && tries < TRIES
      modifies this
      ensures Extends()
      ensures if cut then others == [] else |others| < |old(others)|
      ensures !cut && won ==> At(t, RInside)
      ensures !cut && !won ==> !MayRead(oldval) && At(t, ReaderSpin(tries, oldval))
    {
      won := false;
      cut, oldval := Load(t);
      while !cut && !won && MayRead(oldval)
        invariant Extends()
        invariant if cut then others == [] else |others| < |old(others)|
        invariant !cut ==> At(t, if won then RInside else ReaderSpin(tries, oldval))
        decreases |others|, !cut, !won
      {
        var ret;
        cut, ret := CompareAndExchange(t, ReaderWord(oldval), oldval);
        won := ret == oldval;
        oldval := ret;
      }
    }

    method ReaderAttempts(t: nat) returns (cut: bool, won: bool, oldval: nat)
      requires At(t, RLoad(0))
      modifies this
      ensures Extends()
      ensures if cut then others == [] else |others| < |old(others)|
      ensures !cut ==> At(t, if won then RInside else if HasRwait(oldval) then RWait(oldval) else ROr(oldval))
    {
      cut, won, oldval := false, false, 0;
      for tries := 0 to TRIES
        invariant Extends() && !cut && !won && (tries > 0 ==> |others| < |old(others)|)
        invariant At(t, if tries < TRIES then RLoad(tries) else if HasRwait(oldval) then RWait(oldval) else ROr(oldval))
      {
        cut, won, oldval := ReaderAttempt(t, tries);
        if cut || won { return; }
      }
    }

    method Lock(t: nat) returns (cut: bool)
      requires At(t, Idle)
      modifies this
      ensures Extends()
      ensures if cut then others == [] else At(t, RInside)
    {
      hide CanDo, After, Step, ReaderSpin;
      Append(StartLock(t));
      while true
        invariant Extends() && At(t, RLoad(0))
        decreases |others|
      {
        var won, oldval;
        cut, won, oldval := ReaderAttempts(t);
        if cut || won { return; }
        if !HasRwait(oldval) {
          cut := AtomicOr(t, RWAIT);
          if cut { return; }
          oldval := Or(oldval, RWAIT);
        }
        cut := FutexWait(t, oldval);
        if cut { return; }
      }
    }

    /** One attempt: load the word and retry the CAS while it allows. */
    method WriterAttempt(t: nat, tries: nat) returns (cut: bool, won: bool, oldval: nat)
      requires At(t, WLoad(tries)) && tries < TRIES
      modifies this
      ensures Extends()
      ensures if cut then others == [] else |others| < |old(others)|
      ensures !cut && won ==> At(t, WInside)
      ensures !cut && !won ==> !MayWrite(oldval) && At(t, WriterSpin(tries, oldval))
    {
      won := false;
      cut, oldval := Load(t);
      while !cut && !won && MayWrite(oldval)
        invariant Extends()
        invariant if cut then others == [] else |others| < |old(others)|
        invariant !cut ==> At(t, if won then WInside else WriterSpin(tries, oldval))
        decreases |others|, !cut, !won
      {
        var ret;
        cut, ret := CompareAndExchange(t, WriterWord(oldval), oldval);
        won := ret == oldval;
        oldval := ret;
      }
    }

    method WriterAttempts(t: nat) returns (cut: bool, won: bool, oldval: nat)
      requires At(t, WLoad(0))
      modifies this
      ensures Extends()
      ensures if cut then others == [] else |others| < |old(others)|
      ensures !cut ==> At(t, if won then WInside else WOr(oldval))
    {
      cut, won, oldval := false, false, 0;
      for tries := 0 to TRIES
        invariant Extends() && !cut && !won && (tries > 0 ==> |others| < |old(others)|)
        invariant At(t, if tries < TRIES then WLoad(tries) else WOr(oldval))
      {
        cut, won, oldval := WriterAttempt(t, tries);
        if cut || won { return; }
      }
    }

    method Change(t: nat) returns (cut: bool)
      requires At(t, Idle) && Enabled(now, StartChange(t))
      modifies this
      ensures Extends()
      ensures if cut then others == [] else At(t, WInside)
    {
      hide CanDo, After, Step, WriterSpin;
      Append(StartChange(t));
      while true
        invariant Extends() && At(t, WLoad(0))
        decreases |others|
      {
        var won, oldval;
        cut, won, oldval := WriterAttempts(t);
        if cut || won { return; }
        cut := AtomicOr(t, WWAIT);
        if cut { return; }
        oldval := Or(oldval, WWAIT);
        cut := FutexWait(t, oldval);
        if cut { return; }
      }
    }
  }
}
