/** Which timer the helper thread serves for a signal: the one that the signal names, if it is on the list. */
module TimersHelper {
  import opened Memory
  import opened Timers
  import opened TimersInvariant
  import opened TimersSafety
  import opened TimersTheorems

  /** The value of the latest signal among the first k actions. */
  function Latest(acts: seq<Action>, k: nat): Option<Ptr>
    requires k <= |acts|
  {
    if k == 0 then None
    else if acts[k - 1].Signal? then Some(acts[k - 1].tk)
    else Latest(acts, k - 1)
  }

  /** Actions of the helper from i up to j, other than its wait for a signal. */
  function HelperSteps(acts: seq<Action>, i: nat, j: nat): nat
    requires i <= j <= |acts|
  {
    if i == j then 0 else HelperSteps(acts, i, j - 1) + (if acts[j - 1].HelperStep? then 1 else 0)
  }

  // What the other threads leave alone.

  lemma CreateKeepsHelper(s: State, t: nat, alloc: Option<Ptr>, ok: bool)
    requires t < |s.threads| && Create(s, t, alloc, ok).Ok?
    ensures Create(s, t, alloc, ok).s.helper == s.helper
  {
  }

  lemma EnlistKeepsHelper(s: State, t: nat)
    requires t < |s.threads| && Enlist(s, t).Ok?
    ensures Enlist(s, t).s.helper == s.helper
  {
  }

  lemma DeleteKeepsHelper(s: State, t: nat, ok: bool)
    requires t < |s.threads| && Delete(s, t, ok).Ok?
    ensures Delete(s, t, ok).s.helper == s.helper
  {
    hide Without, Slot;
  }

  lemma FreeKeepsHelper(s: State, t: nat)
    requires t < |s.threads| && Free(s, t).Ok?
    ensures Free(s, t).s.helper == s.helper
  {
  }

  lemma OthersKeepHelper(s: State, a: Action)
    requires Enabled(s, a) && Next(s, a).Ok? && !a.Signal? && !a.HelperStep?
    ensures Next(s, a).s.helper == s.helper
  {
    hide Create, Enlist, Delete, Free;
    if a.Step? {
      var pc := s.threads[a.t];
      if pc.Creating() {
        CreateKeepsHelper(s, a.t, a.alloc, a.ok);
      } else if pc.Enlisting() {
        EnlistKeepsHelper(s, a.t);
      } else if pc.Freeing() {
        FreeKeepsHelper(s, a.t);
      } else {
        DeleteKeepsHelper(s, a.t, a.ok);
      }
    }
  }

  /** While the helper has the lock nobody changes the list, and a signal has to wait. */
  lemma HeldListStays(s: State, a: Action)
    requires Inv(s) && Enabled(s, a) && s.helper.Locked()
    ensures Next(s, a).Ok? && Next(s, a).s.active == s.active
    ensures !a.HelperStep? ==> Next(s, a).s.helper == s.helper
  {
    hide Next;
    ListChanges(s, a);
    if a.Signal? {
      assert false;
    } else if !a.HelperStep? {
      OthersKeepHelper(s, a);
    }
  }

  // The pointer in the helper's hands.

  predicate Holding(h: Helper, tk: Ptr) { (h.HLock? || h.HWalk? || h.HRead?) && h.tk == tk }

  /** A step of the helper keeps the pointer it has. */
  lemma ServeHolds(s: State)
    requires Serve(s).Ok?
    ensures var h := Serve(s).s.helper; h.HLock? || h.HWalk? || h.HRead? ==> Holding(s.helper, h.tk)
  {
  }

  /** Whenever the helper looks for a timer or reads one, it is the one that the latest signal named. */
  lemma {:induction false} ServesLatest(path: seq<State>, acts: seq<Action>, k: nat)
    requires IsRun(path, acts) && Init(path[0]) && k < |path|
    ensures var h := path[k].helper; h.HLock? || h.HWalk? || h.HRead? ==> Latest(acts, k) == Some(h.tk)
  {
    hide Create, Enlist, Delete, Free, Serve;
    if k > 0 {
      ServesLatest(path, acts, k - 1);
      var s, a := path[k - 1], acts[k - 1];
      assert Enabled(s, a) && Next(s, a) == Ok(path[k]);
      if a.HelperStep? {
        ServeHolds(s);
      } else if !a.Signal? {
        OthersKeepHelper(s, a);
      }
    }
  }

  // The walk.

  function Nth(active: seq<Ptr>, n: nat): Option<Ptr> { if n < |active| then Some(active[n]) else None }

  lemma {:induction false} ChainAt(head: Option<Ptr>, heap: map<Ptr, Rec>, active: seq<Ptr>, n: nat)
    requires Chain(head, heap, active)
    ensures head == Nth(active, 0)
    ensures n < |active| ==> active[n] in heap && heap[active[n]].next == Nth(active, n + 1)
    decreases |active|
  {
    if active != [] {
      ChainAt(heap[active[0]].next, heap, active[1..], if n > 0 then n - 1 else 0);
    }
  }

  /** Where the helper is, n steps after it took the lock: it looks at one timer after the other, up to tk. */
  predicate Walked(h: Helper, active: seq<Ptr>, tk: Ptr, n: nat) {
    var f := First(active, tk);
    if n <= f then h == HWalk(tk, Nth(active, n))
    else if n == f + 1 then h == if tk in active then HRead(tk) else HUnlock
    else n == f + 2 && tk in active && h == HUnlock
  }

  /** One step of the helper. */
  lemma WalkStep(s: State, tk: Ptr, n: nat)
    requires Inv(s) && Walked(s.helper, s.active, tk, n) && !s.helper.HUnlock?
    ensures Serve(s).Ok? && Walked(Serve(s).s.helper, s.active, tk, n + 1)
  {
    FirstIs(s.active, tk);
    ChainAt(s.head, s.heap, s.active, n);
    assert s.helper.HRead? ==> s.helper.tk in s.active && s.heap[tk].params;
  }

  lemma TakesLock(s: State)
    requires Inv(s) && Enabled(s, HelperStep) && s.helper.HLock?
    ensures Next(s, HelperStep) == Ok(s.(helper := HWalk(s.helper.tk, s.head), lock := TheHelper))
    ensures Walked(HWalk(s.helper.tk, s.head), s.active, s.helper.tk, 0)
  {
    ChainAt(s.head, s.heap, s.active, 0);
  }

  /** The number of steps from taking the lock to the point where the helper gives it back. */
  function Turn(active: seq<Ptr>, tk: Ptr): nat {
    First(active, tk) + if tk in active then 2 else 1
  }

  lemma StepWalks(s: State, tk: Ptr, n: nat, s': State)
    requires Inv(s) && Enabled(s, HelperStep) && Next(s, HelperStep) == Ok(s')
    requires Walked(s.helper, s.active, tk, n) && n < Turn(s.active, tk)
    ensures Walked(s'.helper, s.active, tk, n + 1)
  {
    hide Inv;
    WalkStep(s, tk, n);
  }

  lemma WalkedLocks(h: Helper, active: seq<Ptr>, tk: Ptr, n: nat)
    requires Walked(h, active, tk, n)
    ensures h.Locked()
  {
  }

  lemma {:induction false} WalkOver(path: seq<State>, acts: seq<Action>, i: nat, j: nat)
    requires IsRun(path, acts) && Init(path[0]) && i < j < |path| && acts[i].HelperStep? && path[i].helper.HLock?
    requires HelperSteps(acts, i + 1, j) <= Turn(path[i].active, path[i].helper.tk)
    ensures path[j].active == path[i].active
    ensures Walked(path[j].helper, path[i].active, path[i].helper.tk, HelperSteps(acts, i + 1, j))
    decreases j
  {
    hide Inv, Init, Next, Walked, Turn, Enabled;
    var s, a, tk := path[j - 1], acts[j - 1], path[i].helper.tk;
    ReachableInv(s, path, acts, j - 1);
    assert Enabled(s, a) && Next(s, a) == Ok(path[j]);
    if j == i + 1 {
      TakesLock(s);
    } else {
      WalkOver(path, acts, i, j - 1);
      WalkedLocks(s.helper, s.active, tk, HelperSteps(acts, i + 1, j - 1));
      HeldListStays(s, a);
      if a.HelperStep? { StepWalks(s, tk, HelperSteps(acts, i + 1, j - 1), path[j]); }
    }
  }

  /**
    Whatever the others do, once the helper has taken the lock for a signal with the value tk: if tk is on the list
    then, the helper comes to read that timer within as many of its steps as the list is long, and if not, it reads
    none; it reads no other timer, and gives the lock back.
  */
  lemma ServesSignalled(path: seq<State>, acts: seq<Action>, i: nat, j: nat)
    requires IsRun(path, acts) && Init(path[0]) && i < j < |path| && acts[i].HelperStep? && path[i].helper.HLock?
    ensures var tk, list, h, n := path[i].helper.tk, path[i].active, path[j].helper, HelperSteps(acts, i + 1, j);
      if tk in list then
        && First(list, tk) < |list|
        && (n <= First(list, tk) ==> h.HWalk?)
        && (n == First(list, tk) + 1 ==> h == HRead(tk))
        && (n == First(list, tk) + 2 ==> h == HUnlock)
        && (n == First(list, tk) + 3 && acts[j - 1].HelperStep? ==> h == HWait && path[j].lock == Nobody)
      else
        && (n <= |list| ==> h.HWalk?)
        && (n == |list| + 1 ==> h == HUnlock)
        && (n == |list| + 2 && acts[j - 1].HelperStep? ==> h == HWait && path[j].lock == Nobody)
  {
    hide Inv, Init, Next, Enabled;
    var tk, list, n := path[i].helper.tk, path[i].active, HelperSteps(acts, i + 1, j);
    FirstIs(list, tk);
    if n <= Turn(list, tk) {
      WalkOver(path, acts, i, j);
    } else if n == Turn(list, tk) + 1 && acts[j - 1].HelperStep? {
      WalkOver(path, acts, i, j - 1);
      assert Enabled(path[j - 1], acts[j - 1]) && Next(path[j - 1], acts[j - 1]) == Ok(path[j]);
      GivesBack(path[j - 1]);
    }
  }

  lemma GivesBack(s: State)
    requires s.helper.HUnlock? && Enabled(s, HelperStep)
    ensures Next(s, HelperStep).Ok? && Next(s, HelperStep).s.helper == HWait && Next(s, HelperStep).s.lock == Nobody
  {
  }
}
