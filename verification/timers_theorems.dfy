/** What the timer registry promises, about every state of every run. */
module TimersTheorems {
  import opened Memory
  import opened Timers
  import opened TimersInvariant
  import opened TimersSafety

  predicate Reachable(s: State, path: seq<State>, acts: seq<Action>, k: nat) {
    IsRun(path, acts) && Init(path[0]) && k < |path| && s == path[k]
  }

  lemma {:induction false} ReachableInv(s: State, path: seq<State>, acts: seq<Action>, k: nat)
    requires Reachable(s, path, acts, k)
    ensures Inv(s)
    decreases k
  {
    hide Inv, Init, Next, Enabled;
    if k == 0 {
      InitInv(s);
    } else {
      ReachableInv(path[k - 1], path, acts, k - 1);
      GoodAction(path[k - 1], acts[k - 1]);
    }
  }

  /** However the threads, the helper and stale signals interleave, nobody touches freed or unwritten memory. */
  lemma NeverFaults(s: State, path: seq<State>, acts: seq<Action>, k: nat, a: Action)
    requires Reachable(s, path, acts, k) && Enabled(s, a)
    ensures Next(s, a).Ok?
  {
    ReachableInv(s, path, acts, k);
    GoodAction(s, a);
  }

  /** The helper reads a timer only while it is on the list, under the lock; delete frees only what is off the list. */
  lemma HelperAndDelete(s: State, path: seq<State>, acts: seq<Action>, k: nat)
    requires Reachable(s, path, acts, k)
    ensures s.helper.HRead? ==> s.lock == TheHelper && s.helper.tk in s.active
    ensures s.helper.HRead? ==> s.helper.tk in s.heap && s.heap[s.helper.tk].params
    ensures forall t :: 0 <= t < |s.threads| && s.threads[t].FFree? ==>
      s.threads[t].p in s.heap && s.threads[t].p !in s.active && Some(s.threads[t].p) !in s.slots
  {
    ReachableInv(s, path, acts, k);
    forall t | 0 <= t < |s.threads| && s.threads[t].FFree?
      ensures s.threads[t].p in s.heap && s.threads[t].p !in s.active && Some(s.threads[t].p) !in s.slots
    {
      Own(s, t, s.threads[t].p);
    }
  }

  // The table of slots.

  /** __kfreebsd_timer_ptr2id, -1 for none */
  function Ptr2Id(slots: seq<Option<Ptr>>, p: Ptr): int {
    if Some(p) !in slots then -1 else First(slots, Some(p))
  }

  /** __kfreebsd_timer_id2ptr */
  function Id2Ptr(slots: seq<Option<Ptr>>, id: int): Option<Ptr> {
    if 0 <= id < |slots| then slots[id] else None
  }

  lemma {:induction false} FirstIs<T>(slots: seq<T>, x: T)
    ensures First(slots, x) <= |slots|
    ensures First(slots, x) < |slots| <==> x in slots
    ensures First(slots, x) < |slots| ==> slots[First(slots, x)] == x
    ensures forall j :: 0 <= j < First(slots, x) ==> slots[j] != x
  {
    if slots != [] && slots[0] != x {
      FirstIs(slots[1..], x);
      assert x in slots <==> x in slots[1..];
      forall j | 0 <= j < First(slots, x) ensures slots[j] != x {
        if j > 0 { assert slots[j] == slots[1..][j - 1]; }
      }
    }
  }

  /** A timer in the table has one slot, and the two lookups are inverse to each other. */
  lemma LookupsInverse(s: State, path: seq<State>, acts: seq<Action>, k: nat, id: int, p: Ptr)
    requires Reachable(s, path, acts, k)
    ensures Id2Ptr(s.slots, id) == Some(p) <==> id != -1 && Ptr2Id(s.slots, p) == id
    ensures id in s.issued && s.issued[id] == p ==> Id2Ptr(s.slots, id) == Some(p)
  {
    ReachableInv(s, path, acts, k);
    FirstIs(s.slots, Some(p));
  }

  // The only accesses that change which ids are issued, or the list.

  lemma CreateAfter(s: State, t: nat, alloc: Option<Ptr>, ok: bool)
    requires t < |s.threads| && Create(s, t, alloc, ok).Ok?
    ensures Create(s, t, alloc, ok).s.issued == s.issued && Create(s, t, alloc, ok).s.active == s.active
  {
    CreateIssues(s, t, alloc, ok);
    CreateLists(s, t, alloc, ok);
    hide Create;
  }

  lemma CreateIssues(s: State, t: nat, alloc: Option<Ptr>, ok: bool)
    requires t < |s.threads| && Create(s, t, alloc, ok).Ok?
    ensures Create(s, t, alloc, ok).s.issued == s.issued
  {
  }

  lemma CreateLists(s: State, t: nat, alloc: Option<Ptr>, ok: bool)
    requires t < |s.threads| && Create(s, t, alloc, ok).Ok?
    ensures Create(s, t, alloc, ok).s.active == s.active
  {
  }

  lemma EnlistAfter(s: State, t: nat)
    requires t < |s.threads| && Enlist(s, t).Ok?
    ensures var s' := Enlist(s, t).s; var pc := s.threads[t];
      && (s'.issued == s.issued || (pc.CId? && Slot(s, pc.i) == Some(pc.p) && s'.issued == s.issued[pc.i := pc.p]))
      && (s'.active == s.active || (pc.CHead? && s'.active == [pc.p] + s.active))
  {
    EnlistIssues(s, t);
    EnlistLists(s, t);
    hide Enlist;
  }

  lemma EnlistIssues(s: State, t: nat)
    requires t < |s.threads| && Enlist(s, t).Ok?
    ensures var s' := Enlist(s, t).s; var pc := s.threads[t];
      s'.issued == s.issued || (pc.CId? && Slot(s, pc.i) == Some(pc.p) && s'.issued == s.issued[pc.i := pc.p])
  {
  }

  lemma EnlistLists(s: State, t: nat)
    requires t < |s.threads| && Enlist(s, t).Ok?
    ensures var s' := Enlist(s, t).s; var pc := s.threads[t];
      s'.active == s.active || (pc.CHead? && s'.active == [pc.p] + s.active)
  {
  }

  lemma DeleteAfter(s: State, t: nat, ok: bool)
    requires t < |s.threads| && Delete(s, t, ok).Ok?
    ensures var s' := Delete(s, t, ok).s; var pc := s.threads[t];
      && (s'.issued == s.issued || (pc.DKernel? && s'.issued == s.issued[pc.id := pc.p]))
      && (s'.active == s.active || ((pc.DHead? || pc.DWalk?) && s'.active == Without(s.active, pc.p)))
  {
    DeleteIssues(s, t, ok);
    DeleteLists(s, t, ok);
    hide Delete;
  }

  lemma DeleteIssues(s: State, t: nat, ok: bool)
    requires t < |s.threads| && Delete(s, t, ok).Ok?
    ensures var s' := Delete(s, t, ok).s; var pc := s.threads[t];
      s'.issued == s.issued || (pc.DKernel? && s'.issued == s.issued[pc.id := pc.p])
  {
    hide Without, Slot;
  }

  lemma DeleteLists(s: State, t: nat, ok: bool)
    requires t < |s.threads| && Delete(s, t, ok).Ok?
    ensures var s' := Delete(s, t, ok).s; var pc := s.threads[t];
      s'.active == s.active || ((pc.DHead? || pc.DWalk?) && s'.active == Without(s.active, pc.p))
  {
    hide Without, Slot;
  }

  lemma FreeAfter(s: State, t: nat)
    requires t < |s.threads| && Free(s, t).Ok?
    ensures var s' := Free(s, t).s; s'.issued == s.issued && s'.active == s.active
  {
  }

  lemma After(s: State, a: Action)
    requires Enabled(s, a) && Next(s, a).Ok?
    ensures var s' := Next(s, a).s;
      if a.Step? then
        var pc := s.threads[a.t];
        && (s'.issued == s.issued
            || (pc.CId? && Slot(s, pc.i) == Some(pc.p) && s'.issued == s.issued[pc.i := pc.p])
            || (pc.DKernel? && s'.issued == s.issued[pc.id := pc.p]))
        && (s'.active == s.active
            || (pc.CHead? && s'.active == [pc.p] + s.active)
            || ((pc.DHead? || pc.DWalk?) && s'.active == Without(s.active, pc.p)))
      else
        s'.active == s.active && (s'.issued == s.issued || (a.StartDelete? && s'.issued == s.issued - {a.id}))
  {
    hide Create, Enlist, Delete, Free;
    if a.Step? {
      var pc := s.threads[a.t];
      if pc.Creating() {
        CreateAfter(s, a.t, a.alloc, a.ok);
      } else if pc.Enlisting() {
        EnlistAfter(s, a.t);
      } else if pc.Freeing() {
        FreeAfter(s, a.t);
      } else {
        DeleteAfter(s, a.t, a.ok);
      }
    }
  }

  /** An issued id keeps naming the same timer until a delete takes it. */
  lemma IdStays(s: State, a: Action, id: nat)
    requires Inv(s) && Enabled(s, a) && id in s.issued && !(a.StartDelete? && a.id == id)
    ensures Next(s, a).Ok? && id in Next(s, a).s.issued && Next(s, a).s.issued[id] == s.issued[id]
  {
    hide Next, Inv;
    GoodAction(s, a);
    After(s, a);
    if a.Step? && s.threads[a.t].CId? {
      Own(s, a.t, s.threads[a.t].p);
      if Slot(s, s.threads[a.t].i) == Some(s.threads[a.t].p) {
        NotIssued(s, a.t, s.threads[a.t].p, s.threads[a.t].i);
      }
    } else if a.Step? && s.threads[a.t].DKernel? {
      Own(s, a.t, s.threads[a.t].p);
      NotIssued(s, a.t, s.threads[a.t].p, s.threads[a.t].id);
    }
  }

  lemma {:induction false} IdStable(path: seq<State>, acts: seq<Action>, i: nat, j: nat, id: nat)
    requires IsRun(path, acts) && Init(path[0]) && i <= j < |path| && id in path[i].issued
    requires forall m :: i <= m < j ==> !(acts[m].StartDelete? && acts[m].id == id)
    ensures id in path[j].issued && path[j].issued[id] == path[i].issued[id]
    ensures Id2Ptr(path[j].slots, id) == Some(path[i].issued[id])
  {
    hide Inv, Next, Init, Enabled, Listed, Mutex;
    ReachableInv(path[j], path, acts, j);
    if i < j {
      IdStable(path, acts, i, j - 1, id);
      ReachableInv(path[j - 1], path, acts, j - 1);
      IdStays(path[j - 1], acts[j - 1], id);
    }
    Issued(path[j], id);
  }

  // The active list.

  predicate ListedById(s: State, id: nat)
    requires id in s.issued
  {
    var p := s.issued[id];
    p in s.heap && (p in s.active <==> s.heap[p].notify == SigevThread)
  }

  /** The list has no cycle or repetition, and holds exactly the SIGEV_THREAD timers pushed and not yet unlinked. */
  lemma ActiveListIs(s: State, path: seq<State>, acts: seq<Action>, k: nat)
    requires Reachable(s, path, acts, k)
    ensures Chain(s.head, s.heap, s.active) && Distinct(s.active)
    ensures forall p :: p in s.active <==> Listed(s, p)
    ensures forall id :: id in s.issued ==> ListedById(s, id)
  {
    ReachableInv(s, path, acts, k);
    forall id | id in s.issued ensures ListedById(s, id) {
      Issued(s, id);
    }
  }

  /** An action pushes its own timer in front, takes its own timer out, or leaves the list. */
  lemma ListChanges(s: State, a: Action)
    requires Inv(s) && Enabled(s, a)
    ensures Next(s, a).Ok?
    ensures var active' := Next(s, a).s.active;
      || active' == s.active
      || (a.Step? && s.threads[a.t].CHead? && s.threads[a.t].p !in s.active && active' == [s.threads[a.t].p] + s.active)
      || (a.Step? && (s.threads[a.t].DHead? || s.threads[a.t].DWalk?) && s.threads[a.t].p in s.active
          && active' == Without(s.active, s.threads[a.t].p))
  {
    hide Next, Inv;
    GoodAction(s, a);
    After(s, a);
    if a.Step? && (s.threads[a.t].CHead? || s.threads[a.t].DHead? || s.threads[a.t].DWalk?) {
      Own(s, a.t, s.threads[a.t].p);
    }
  }

  /** `Without` takes one element out and keeps the order of the rest. */
  lemma {:induction false} WithoutIs<T>(active: seq<T>, p: T) returns (k: nat)
    requires p in active
    ensures k < |active| && active[k] == p && Without(active, p) == active[..k] + active[k + 1..]
  {
    if active[0] == p {
      k := 0;
    } else {
      k := WithoutIs(active[1..], p);
      k := k + 1;
      assert [active[0]] + active[1..][..k - 1] == active[..k];
    }
  }
}
