/** When a create among others loses its block. */
module TimersLeak {
  import opened Memory
  import opened Timers
  import opened TimersInvariant
  import opened TimersSafety
  import opened TimersTheorems
  import opened TimersSolo
  import opened TimersFull

  /** At action m thread t looks at slot x for the timer at p. */
  predicate Looks(path: seq<State>, acts: seq<Action>, t: nat, p: Ptr, m: nat, x: nat)
    requires |path| == |acts| + 1 && m < |acts|
  {
    && acts[m].Step? && acts[m].t == t && t < |path[m].threads|
    && path[m].threads[t].CScan? && path[m].threads[t].p == p && path[m].threads[t].i == x < TIMER_MAX
  }

  /** The thread has looked at slot x and found it free, or taken. */
  ghost predicate Saw(path: seq<State>, acts: seq<Action>, t: nat, p: Ptr, i: nat, m: nat, x: nat, free: bool)
    requires |path| == |acts| + 1 && m <= |acts|
  {
    exists k :: i < k < m && Looks(path, acts, t, p, k, x) && (Slot(path[k], x) == None <==> free)
  }

  /** The thread has looked at every slot and found each taken at that moment. */
  ghost predicate SawAllTaken(path: seq<State>, acts: seq<Action>, t: nat, p: Ptr, i: nat, m: nat)
    requires |path| == |acts| + 1 && m <= |acts|
  {
    forall x: nat :: x < TIMER_MAX ==> Saw(path, acts, t, p, i, m, x, false)
  }

  /** Thread t is at work on the timer at p since it has found a slot for it. */
  predicate Placed(pc: Pc, p: Ptr) {
    && pc.Mine() == Some(p)
    && (pc.CFill? || pc.CKernel? || pc.CNotify? || pc.Enlisting() || pc.Freeing())
  }

  /** What a thread has done since it got the block at p, after action i and up to state m. */
  ghost predicate Phase(path: seq<State>, acts: seq<Action>, t: nat, p: Ptr, i: nat, m: nat)
    requires |path| == |acts| + 1 && m <= |acts|
  {
    && t < |path[m].threads|
    && var pc := path[m].threads[t];
       if pc.CScan? then
         && pc.p == p && pc.i <= TIMER_MAX
         && (forall x: nat :: x < pc.i ==> Saw(path, acts, t, p, i, m, x, false))
         && (forall x: nat :: !Saw(path, acts, t, p, i, m, x, true))
       else Placed(pc, p) && exists x: nat :: x < TIMER_MAX && Saw(path, acts, t, p, i, m, x, true)
  }

  // One action.

  /** An action of a thread moves no other thread. */
  predicate OnlyMoves(s: State, s': State, t: nat) {
    t < |s.threads| && |s'.threads| == |s.threads| && s'.threads == s.threads[t := s'.threads[t]]
  }

  lemma CreateMoves(s: State, t: nat, alloc: Option<Ptr>, ok: bool)
    requires t < |s.threads| && Create(s, t, alloc, ok).Ok?
    ensures OnlyMoves(s, Create(s, t, alloc, ok).s, t)
  {
  }

  lemma EnlistMoves(s: State, t: nat)
    requires t < |s.threads| && Enlist(s, t).Ok?
    ensures OnlyMoves(s, Enlist(s, t).s, t)
  {
  }

  lemma DeleteMoves(s: State, t: nat, ok: bool)
    requires t < |s.threads| && Delete(s, t, ok).Ok?
    ensures OnlyMoves(s, Delete(s, t, ok).s, t)
  {
    hide Without, Slot;
  }

  lemma FreeMoves(s: State, t: nat)
    requires t < |s.threads| && Free(s, t).Ok?
    ensures OnlyMoves(s, Free(s, t).s, t)
  {
  }

  lemma StepMoves(s: State, t: nat, alloc: Option<Ptr>, ok: bool)
    requires Enabled(s, Step(t, alloc, ok)) && Next(s, Step(t, alloc, ok)).Ok?
    ensures OnlyMoves(s, Next(s, Step(t, alloc, ok)).s, t)
  {
    hide Create, Enlist, Delete, Free, OnlyMoves;
    var pc := s.threads[t];
    if pc.Creating() {
      CreateMoves(s, t, alloc, ok);
    } else if pc.Enlisting() {
      EnlistMoves(s, t);
    } else if pc.Freeing() {
      FreeMoves(s, t);
    } else {
      DeleteMoves(s, t, ok);
    }
  }

  /** A thread in the middle of a call moves only by its own steps. */
  lemma OthersStay(s: State, a: Action, t: nat)
    requires Enabled(s, a) && Next(s, a).Ok? && t < |s.threads| && !s.threads[t].Idle? && !(a.Step? && a.t == t)
    ensures t < |Next(s, a).s.threads| && Next(s, a).s.threads[t] == s.threads[t]
  {
    hide Create, Enlist, Delete, Free;
    if a.Step? { StepMoves(s, a.t, a.alloc, a.ok); }
  }

  /** A thread that has a place for its timer keeps at it, until it has issued the id or freed the block. */
  predicate PlacedMoves(s: State, s': State, t: nat, p: Ptr) {
    && t < |s.threads| == |s'.threads|
    && var pc, pc' := s.threads[t], s'.threads[t];
       || Placed(pc', p)
       || (pc'.Idle? && pc.CId? && Slot(s, pc.i) == Some(p) && s'.issued == s.issued[pc.i := p])
       || (pc'.Idle? && pc.FFree? && s'.heap == s.heap - {p} && s'.owner == s.owner - {p}
           && s'.slots == s.slots && s'.active == s.active)
  }

  lemma CreatePlaced(s: State, t: nat, alloc: Option<Ptr>, ok: bool, p: Ptr)
    requires t < |s.threads| && Placed(s.threads[t], p) && s.threads[t].Creating() && Create(s, t, alloc, ok).Ok?
    ensures PlacedMoves(s, Create(s, t, alloc, ok).s, t, p)
  {
  }

  lemma EnlistPlaced(s: State, t: nat, p: Ptr)
    requires t < |s.threads| && Placed(s.threads[t], p) && s.threads[t].Enlisting() && Enlist(s, t).Ok?
    ensures PlacedMoves(s, Enlist(s, t).s, t, p)
  {
  }

  lemma FreePlaced(s: State, t: nat, p: Ptr)
    requires t < |s.threads| && Placed(s.threads[t], p) && s.threads[t].Freeing() && Free(s, t).Ok?
    ensures PlacedMoves(s, Free(s, t).s, t, p)
  {
  }

  lemma StepPlaced(s: State, t: nat, alloc: Option<Ptr>, ok: bool, p: Ptr)
    requires Enabled(s, Step(t, alloc, ok)) && Placed(s.threads[t], p) && Next(s, Step(t, alloc, ok)).Ok?
    ensures PlacedMoves(s, Next(s, Step(t, alloc, ok)).s, t, p)
  {
    hide Create, Enlist, Delete, Free, PlacedMoves;
    if s.threads[t].Creating() {
      CreatePlaced(s, t, alloc, ok, p);
    } else if s.threads[t].Enlisting() {
      EnlistPlaced(s, t, p);
    } else {
      FreePlaced(s, t, p);
    }
  }

  // The phases over a run.

  lemma SawStays(path: seq<State>, acts: seq<Action>, t: nat, p: Ptr, i: nat, m: nat, x: nat, free: bool)
    requires |path| == |acts| + 1 && i < m < |acts|
    ensures Saw(path, acts, t, p, i, m + 1, x, free) <==>
      Saw(path, acts, t, p, i, m, x, free) || (Looks(path, acts, t, p, m, x) && (Slot(path[m], x) == None <==> free))
  {
  }

  lemma AllSawStays(path: seq<State>, acts: seq<Action>, t: nat, p: Ptr, i: nat, m: nat)
    requires |path| == |acts| + 1 && i < m < |acts|
    ensures forall x: nat, free: bool {:trigger Saw(path, acts, t, p, i, m, x, free)}
      {:trigger Saw(path, acts, t, p, i, m + 1, x, free)} ::
      Saw(path, acts, t, p, i, m + 1, x, free) <==>
        Saw(path, acts, t, p, i, m, x, free) || (Looks(path, acts, t, p, m, x) && (Slot(path[m], x) == None <==> free))
  {
    forall x: nat, free: bool {
      SawStays(path, acts, t, p, i, m, x, free);
    }
  }

  /** From one state to the next, unless the call ends. */
  lemma PhaseOn(path: seq<State>, acts: seq<Action>, t: nat, p: Ptr, i: nat, m: nat)
    requires IsRun(path, acts) && m < |acts| && i < m && |path[m].slots| == TIMER_MAX
    requires Phase(path, acts, t, p, i, m) && t < |path[m + 1].threads| && !path[m + 1].threads[t].Idle?
    ensures Phase(path, acts, t, p, i, m + 1)
  {
    hide Next, Enabled, Saw;
    var s, a := path[m], acts[m];
    assert Enabled(s, a) && Next(s, a) == Ok(path[m + 1]);
    AllSawStays(path, acts, t, p, i, m);
    if a.Step? && a.t == t {
      assert a == Step(t, a.alloc, a.ok);
      if s.threads[t].CScan? {
        var x := s.threads[t].i;
        CScanDoes(s, t, a.alloc, a.ok, s.threads[t].th, p, x);
        assert x < TIMER_MAX;
        assert Saw(path, acts, t, p, i, m + 1, x, s.slots[x] == None) by { assert Looks(path, acts, t, p, m, x); }
      } else {
        StepPlaced(s, t, a.alloc, a.ok, p);
      }
    } else {
      OthersStay(s, a, t);
    }
  }

  /** Thread t gets the block at p for a create by action i, and in state j the create has just ended without an id. */
  ghost predicate FailedCreate(path: seq<State>, acts: seq<Action>, t: nat, p: Ptr, i: nat, j: nat)
    requires |path| == |acts| + 1
  {
    && i < j <= |acts| && acts[i].Step? && acts[i].t == t && acts[i].alloc == Some(p)
    && (forall m :: i <= m <= j ==> t < |path[m].threads|)
    && path[i].threads[t].CMalloc? && path[j].threads[t].Idle?
    && (forall m :: i < m < j ==> !path[m].threads[t].Idle?)
    && path[j].issued == path[j - 1].issued
  }

  predicate IsLeaked(s: State, p: Ptr) { p in s.heap && p in s.owner && s.owner[p] == Leaked }

  lemma BlockGot(s: State, t: nat, p: Ptr, ok: bool)
    requires Enabled(s, Step(t, Some(p), ok)) && s.threads[t].CMalloc? && Next(s, Step(t, Some(p), ok)).Ok?
    ensures Next(s, Step(t, Some(p), ok)).s.threads[t] == CScan(s.threads[t].th, p, 0)
  {
  }

  lemma PhaseStarts(path: seq<State>, acts: seq<Action>, t: nat, p: Ptr, i: nat, j: nat)
    requires IsRun(path, acts) && FailedCreate(path, acts, t, p, i, j)
    ensures Phase(path, acts, t, p, i, i + 1)
  {
    hide Next, Enabled, Looks;
    assert Enabled(path[i], acts[i]) && Next(path[i], acts[i]) == Ok(path[i + 1]);
    assert acts[i] == Step(t, Some(p), acts[i].ok);
    BlockGot(path[i], t, p, acts[i].ok);
  }

  lemma TableSize(s: State)
    requires Inv(s)
    ensures |s.slots| == TIMER_MAX
  {
  }

  lemma {:induction false} PhaseAt(path: seq<State>, acts: seq<Action>, t: nat, p: Ptr, i: nat, j: nat, m: nat)
    requires IsRun(path, acts) && Init(path[0]) && FailedCreate(path, acts, t, p, i, j) && i < m < j
    ensures Phase(path, acts, t, p, i, m)
    decreases m
  {
    hide Next, Enabled, Inv, Init, Phase;
    if m == i + 1 {
      PhaseStarts(path, acts, t, p, i, j);
    } else {
      PhaseAt(path, acts, t, p, i, j, m - 1);
      ReachableInv(path[m - 1], path, acts, m - 1);
      TableSize(path[m - 1]);
      PhaseOn(path, acts, t, p, i, m - 1);
    }
  }

  /** The last action of a create that gives up its search. */
  lemma GaveUp(s: State, t: nat, p: Ptr, a: Action, s': State)
    requires Inv(s) && Enabled(s, a) && a.Step? && a.t == t && Next(s, a) == Ok(s')
    requires s.threads[t].CScan? && s.threads[t].p == p && t < |s'.threads| && s'.threads[t].Idle?
    ensures s.threads[t].i >= TIMER_MAX && IsLeaked(s', p) && Some(p) !in s'.slots && p !in s'.active
  {
    hide Next, Inv;
    Own(s, t, p);
    CScanDoes(s, t, a.alloc, a.ok, s.threads[t].th, p, s.threads[t].i);
  }

  /** The last action of a create that has had a place and ends without an id. */
  lemma TookBack(s: State, t: nat, p: Ptr, a: Action, s': State)
    requires Inv(s) && Enabled(s, a) && a.Step? && a.t == t && Next(s, a) == Ok(s') && s'.issued == s.issued
    requires Placed(s.threads[t], p) && t < |s'.threads| && s'.threads[t].Idle?
    ensures p !in s'.heap && p !in s'.owner && Some(p) !in s'.slots && p !in s'.active
  {
    hide Next, Inv;
    Own(s, t, p);
    StepPlaced(s, t, a.alloc, a.ok, p);
    if s.threads[t].CId? && Slot(s, s.threads[t].i) == Some(p) {
      NotIssued(s, t, p, s.threads[t].i);
    }
  }

  /** The action that ends a call is the thread's own. */
  lemma OwnEnd(path: seq<State>, acts: seq<Action>, t: nat, p: Ptr, i: nat, j: nat)
    requires IsRun(path, acts) && FailedCreate(path, acts, t, p, i, j)
    ensures i + 1 < j && acts[j - 1].Step? && acts[j - 1].t == t
  {
    hide Next, Enabled;
    if j == i + 1 {
      assert Enabled(path[i], acts[i]) && Next(path[i], acts[i]) == Ok(path[i + 1]);
      assert acts[i] == Step(t, Some(p), acts[i].ok);
      BlockGot(path[i], t, p, acts[i].ok);
    } else if !(acts[j - 1].Step? && acts[j - 1].t == t) {
      OthersStay(path[j - 1], acts[j - 1], t);
    }
  }

  /**
    However other threads interfere: a create that fails loses its block if and only if every slot it looked at was
    taken at that moment, and then it has looked at all of them.  Otherwise its block is freed.  In either case the
    timer is neither in the table nor on the list.
  */
  lemma LeakExactly(path: seq<State>, acts: seq<Action>, t: nat, p: Ptr, i: nat, j: nat)
    requires IsRun(path, acts) && Init(path[0]) && FailedCreate(path, acts, t, p, i, j)
    ensures IsLeaked(path[j], p) <==>
      forall m, x: nat | i < m < j && Looks(path, acts, t, p, m, x) :: Slot(path[m], x) != None
    ensures IsLeaked(path[j], p) ==> SawAllTaken(path, acts, t, p, i, j - 1)
    ensures !IsLeaked(path[j], p) ==> p !in path[j].heap && p !in path[j].owner
    ensures Some(p) !in path[j].slots && p !in path[j].active
  {
    hide Next, Enabled, Inv, Init;
    OwnEnd(path, acts, t, p, i, j);
    var k := j - 1;
    PhaseAt(path, acts, t, p, i, j, k);
    ReachableInv(path[k], path, acts, k);
    if path[k].threads[t].CScan? {
      GaveUp(path[k], t, p, acts[k], path[j]);
      forall m, x: nat | i < m < j && Looks(path, acts, t, p, m, x) ensures Slot(path[m], x) != None {
        assert !Saw(path, acts, t, p, i, k, x, true);
      }
    } else {
      TookBack(path[k], t, p, acts[k], path[j]);
      var x: nat :| x < TIMER_MAX && Saw(path, acts, t, p, i, k, x, true);
      var m :| i < m < k && Looks(path, acts, t, p, m, x) && Slot(path[m], x) == None;
    }
  }

  /** A caller can rely on it: while some slot stays free, a failing create loses nothing. */
  lemma FreeSlotNoLeak(path: seq<State>, acts: seq<Action>, t: nat, p: Ptr, i: nat, j: nat, x: nat)
    requires IsRun(path, acts) && Init(path[0]) && FailedCreate(path, acts, t, p, i, j)
    requires x < TIMER_MAX && forall m :: i < m < j ==> Slot(path[m], x) == None
    ensures p !in path[j].heap && p !in path[j].owner && Some(p) !in path[j].slots && p !in path[j].active
  {
    hide Next, Enabled, Init, Looks;
    LeakExactly(path, acts, t, p, i, j);
    assert !Saw(path, acts, t, p, i, j - 1, x, false);
  }

  // A leak with a free slot at the start.

  lemma CountStays(s: State, a: Action)
    requires Enabled(s, a) && Next(s, a).Ok?
    ensures |Next(s, a).s.threads| == |s.threads|
  {
    hide Create, Enlist, Delete, Free;
    if a.Step? { StepMoves(s, a.t, a.alloc, a.ok); }
  }

  lemma {:induction false} Counts(path: seq<State>, acts: seq<Action>, m: nat)
    requires IsRun(path, acts) && m < |path|
    ensures |path[m].threads| == |path[0].threads|
    decreases m
  {
    hide Next, Enabled;
    if m > 0 {
      var k := m - 1;
      Counts(path, acts, k);
      assert Next(path[k], acts[k]) == Ok(path[k + 1]);
      CountStays(path[m - 1], acts[m - 1]);
    }
  }

  /** While only others act, a thread in the middle of a call stays where it is. */
  lemma {:induction false} Waits(path: seq<State>, acts: seq<Action>, t: nat, a: nat, m: nat)
    requires IsRun(path, acts) && a <= m < |path| && t < |path[a].threads| && !path[a].threads[t].Idle?
    requires forall k :: a <= k < m ==> !(acts[k].Step? && acts[k].t == t)
    ensures t < |path[m].threads| && path[m].threads[t] == path[a].threads[t]
    decreases m
  {
    hide Next, Enabled;
    if a < m {
      var k := m - 1;
      Waits(path, acts, t, a, k);
      assert Next(path[k], acts[k]) == Ok(path[k + 1]);
      OthersStay(path[m - 1], acts[m - 1], t);
    }
  }

  /** A table with one free slot, and thread 1 about to look for it; thread 0 has nothing to do. */
  predicate OneFree(s: State, th: bool) {
    && |s.slots| == TIMER_MAX && s.slots[TIMER_MAX - 1] == None
    && (forall x :: 0 <= x < TIMER_MAX - 1 ==> s.slots[x] == Some(x))
    && (forall p :: p in s.heap ==> p < TIMER_MAX - 1)
    && |s.threads| >= 2 && s.threads[0].Idle? && s.threads[1] == CMalloc(th)
  }

  /** The block for thread 1's create. */
  lemma GetBlock(s: State, th: bool, ok: bool) returns (s': State)
    requires OneFree(s, th)
    ensures Enabled(s, Step(1, Some(TIMER_MAX), ok)) && Next(s, Step(1, Some(TIMER_MAX), ok)) == Ok(s')
    ensures s'.threads == s.threads[1 := CScan(th, TIMER_MAX, 0)] && s'.slots == s.slots
    ensures TIMER_MAX - 1 !in s'.heap && TIMER_MAX in s'.heap
  {
    CMallocDoes(s, 1, TIMER_MAX, ok, th);
    s' := At(s, 1, CScan(th, TIMER_MAX, 0)).(
      heap := s.heap[TIMER_MAX := GARBAGE], owner := s.owner[TIMER_MAX := Thread(1)]);
  }

  /** Thread 0 takes the last slot. */
  lemma TakeLast(s: State, th: bool) returns (n: nat, s': State)
    requires |s.slots| == TIMER_MAX && s.slots[TIMER_MAX - 1] == None && TIMER_MAX - 1 !in s.heap
    requires forall x :: 0 <= x < TIMER_MAX - 1 ==> s.slots[x] == Some(x)
    requires |s.threads| >= 2 && s.threads[0] == CMalloc(false) && s.threads[1] == CScan(th, TIMER_MAX, 0)
    requires TIMER_MAX in s.heap
    ensures Solo(s, 0, Some(TIMER_MAX - 1), true, n, s')
    ensures s'.threads == s.threads[0 := Idle] && |s'.slots| == TIMER_MAX && TIMER_MAX in s'.heap
    ensures forall x :: 0 <= x < TIMER_MAX ==> s'.slots[x] != None
  {
    hide Solo;
    n := CreateAlone(s, 0, TIMER_MAX - 1, false, TIMER_MAX - 1);
    s' := Created(s, 0, TIMER_MAX - 1, false, TIMER_MAX - 1);
  }

  lemma GiveUp(s: State, th: bool, ok: bool)
    requires |s.slots| == TIMER_MAX && |s.threads| >= 2 && s.threads[1] == CScan(th, TIMER_MAX, TIMER_MAX)
    ensures Enabled(s, Step(1, None, ok))
    ensures Next(s, Step(1, None, ok)) == Ok(At(s, 1, Idle).(owner := s.owner[TIMER_MAX := Leaked]))
  {
    CScanDoes(s, 1, None, ok, th, TIMER_MAX, TIMER_MAX);
  }

  lemma Prolong(path: seq<State>, acts: seq<Action>, a: Action) returns (path': seq<State>, acts': seq<Action>)
    requires IsRun(path, acts) && Enabled(path[|acts|], a) && Next(path[|acts|], a).Ok?
    ensures IsRun(path', acts') && path <= path' && acts' == acts + [a] && path'[|acts'|] == Next(path[|acts|], a).s
  {
    hide Next, Enabled;
    OneMore(path, acts, a);
    path', acts' := path + [Next(path[|acts|], a).s], acts + [a];
  }

  /** From every initial state with two threads: all slots but one filled, and thread 1 has called create. */
  lemma ToOneFree(s0: State, th: bool) returns (path: seq<State>, acts: seq<Action>)
    requires Init(s0) && |s0.threads| >= 2
    ensures IsRun(path, acts) && path[0] == s0 && OneFree(path[|acts|], th)
  {
    hide Next, Enabled, Init, Filled;
    path, acts := FillUp(s0, TIMER_MAX - 1);
    var s := path[|acts|];
    Counts(path, acts, |acts|);
    FilledMeans(s, TIMER_MAX - 1);
    CallsCreate(s, 1, th);
    path, acts := Prolong(path, acts, StartCreate(1, th));
    OneFreeIs(s, th);
  }

  lemma CallsCreate(s: State, t: nat, th: bool)
    requires t < |s.threads| && s.threads[t].Idle?
    ensures Enabled(s, StartCreate(t, th)) && Next(s, StartCreate(t, th)) == Ok(At(s, t, CMalloc(th)))
  {
  }

  lemma OneFreeIs(s: State, th: bool)
    requires Filled(s, TIMER_MAX - 1) && |s.threads| >= 2
    ensures OneFree(At(s, 1, CMalloc(th)), th)
  {
  }

  /** Thread 1 has its block and is about to search; thread 0 has taken the last slot. */
  lemma ToAllTaken(s0: State, th: bool, ok: bool) returns (path: seq<State>, acts: seq<Action>, i: nat)
    requires Init(s0) && |s0.threads| >= 2
    ensures IsRun(path, acts) && path[0] == s0 && i < |acts| && acts[i] == Step(1, Some(TIMER_MAX), ok)
    ensures |path[i].threads| >= 2 && path[i].threads[1].CMalloc? && None in path[i].slots
    ensures |path[i + 1].threads| >= 2 && path[i + 1].threads[1].CScan?
    ensures forall m :: i < m < |acts| ==> !(acts[m].Step? && acts[m].t == 1)
    ensures var s := path[|acts|];
      && |s.threads| >= 2 && s.threads[1] == CScan(th, TIMER_MAX, 0) && |s.slots| == TIMER_MAX
      && TIMER_MAX in s.heap && forall x :: 0 <= x < TIMER_MAX ==> s.slots[x] != None
  {
    hide Next, Enabled, Init, Solo;
    path, acts := ToOneFree(s0, th);
    i := |acts|;
    var s1 := path[i];
    assert s1.slots[TIMER_MAX - 1] == None;
    var s2 := GetBlock(s1, th, ok);
    path, acts := Prolong(path, acts, Step(1, Some(TIMER_MAX), ok));
    CallsCreate(s2, 0, false);
    path, acts := Prolong(path, acts, StartCreate(0, false));
    var n, s4 := TakeLast(path[|acts|], th);
    path, acts := SoloRun(path, acts, 0, Some(TIMER_MAX - 1), true, n, s4);
  }

  /**
    A free slot when the create is called does not save its block: another thread may take the slot before the search
    gets there.
  */
  lemma InterferedLeak(s0: State, th: bool, ok: bool) returns (path: seq<State>, acts: seq<Action>, i: nat)
    requires Init(s0) && |s0.threads| >= 2
    ensures IsRun(path, acts) && path[0] == s0 && FailedCreate(path, acts, 1, TIMER_MAX, i, |acts|)
    ensures None in path[i].slots && IsLeaked(path[|acts|], TIMER_MAX)
  {
    hide Next, Enabled, Init, Solo, Inv;
    path, acts, i := ToAllTaken(s0, th, ok);
    var a := |acts|;
    var s4 := path[a];
    ScanTo(s4, 1, None, ok, th, TIMER_MAX, 0, TIMER_MAX);
    path, acts := SoloRun(path, acts, 1, None, ok, TIMER_MAX, At(s4, 1, CScan(th, TIMER_MAX, TIMER_MAX)));
    var k := |acts|;
    GiveUp(path[k], th, ok);
    path, acts := Prolong(path, acts, Step(1, None, ok));
    NotIdleBetween(path, acts, i, a, k);
  }

  lemma NotIdleBetween(path: seq<State>, acts: seq<Action>, i: nat, a: nat, k: nat)
    requires IsRun(path, acts) && i < a <= k < |path| && 1 < |path[0].threads|
    requires 1 < |path[i + 1].threads| && !path[i + 1].threads[1].Idle?
    requires forall m :: i < m < a ==> !(acts[m].Step? && acts[m].t == 1)
    requires forall m :: a <= m < k ==> acts[m].Step? && acts[m].t == 1
    requires 1 < |path[k].threads| && !path[k].threads[1].Idle?
    ensures forall m :: 0 <= m < |path| ==> 1 < |path[m].threads|
    ensures forall m :: i < m <= k ==> !path[m].threads[1].Idle?
  {
    hide Next;
    forall m | 0 <= m < |path| ensures 1 < |path[m].threads| { Counts(path, acts, m); }
    forall m | i < m <= k ensures !path[m].threads[1].Idle? {
      if m <= a {
        Waits(path, acts, 1, i + 1, m);
      } else if m < k {
        assert Enabled(path[m], acts[m]);
      }
    }
  }
}
