/** A full table, and with it a create that leaves a block behind, can be reached. */
module TimersFull {
  import opened Memory
  import opened Timers
  import opened TimersSolo

  /** k timers, at the addresses below k, fill the first k slots; nothing is going on. */
  predicate Filled(s: State, k: nat) {
    && |s.slots| == TIMER_MAX && k <= TIMER_MAX
    && (forall j :: 0 <= j < k ==> s.slots[j] == Some(j))
    && (forall j :: k <= j < TIMER_MAX ==> s.slots[j] == None)
    && (forall p :: p in s.heap ==> p < k)
    && |s.threads| > 0 && (forall u :: 0 <= u < |s.threads| ==> s.threads[u].Idle?) && s.lock == Nobody
  }

  lemma OneMore(path: seq<State>, acts: seq<Action>, a: Action)
    requires IsRun(path, acts) && Enabled(path[|acts|], a) && Next(path[|acts|], a).Ok?
    ensures IsRun(path + [Next(path[|acts|], a).s], acts + [a])
  {
    hide Next, Enabled;
  }

  /** What a thread does alone prolongs a run. */
  lemma {:induction false} SoloRun(path: seq<State>, acts: seq<Action>, t: nat, alloc: Option<Ptr>, ok: bool, n: nat,
    s': State)
      returns (path': seq<State>, acts': seq<Action>)
    requires IsRun(path, acts) && Solo(path[|acts|], t, alloc, ok, n, s')
    ensures IsRun(path', acts') && path <= path' && acts <= acts' && path'[|acts'|] == s'
    ensures forall m :: |acts| <= m < |acts'| ==> acts'[m] == Step(t, alloc, ok)
    decreases n
  {
    hide Next, Enabled;
    if n == 0 {
      path', acts' := path, acts;
    } else {
      var a := Step(t, alloc, ok);
      OneMore(path, acts, a);
      path', acts' := SoloRun(path + [Next(path[|acts|], a).s], acts + [a], t, alloc, ok, n - 1, s');
    }
  }

  lemma CreatedIsFilled(s: State, k: nat)
    requires Filled(s, k) && k < TIMER_MAX
    ensures Filled(Created(At(s, 0, CMalloc(false)), 0, k, false, k), k + 1)
  {
  }

  lemma CallCreate(s: State, th: bool)
    requires |s.threads| > 0 && s.threads[0].Idle?
    ensures Enabled(s, StartCreate(0, th)) && Next(s, StartCreate(0, th)) == Ok(At(s, 0, CMalloc(th)))
  {
  }

  lemma {:induction false} FillUp(s0: State, k: nat) returns (path: seq<State>, acts: seq<Action>)
    requires Init(s0) && |s0.threads| > 0 && k <= TIMER_MAX
    ensures IsRun(path, acts) && path[0] == s0 && Filled(path[|acts|], k)
    decreases k
  {
    if k == 0 {
      path, acts := [s0], [];
    } else {
      hide Next, Enabled, Init, Solo, Created, Filled;
      path, acts := FillUp(s0, k - 1);
      var s := path[|acts|];
      FilledMeans(s, k - 1);
      CallCreate(s, false);
      OneMore(path, acts, StartCreate(0, false));
      var s1 := At(s, 0, CMalloc(false));
      var n := CreateAlone(s1, 0, k - 1, false, k - 1);
      var s2 := Created(s1, 0, k - 1, false, k - 1);
      path, acts := SoloRun(path + [s1], acts + [StartCreate(0, false)], 0, Some(k - 1), true, n, s2);
      CreatedIsFilled(s, k - 1);
    }
  }

  lemma FilledMeans(s: State, k: nat)
    requires Filled(s, k)
    ensures |s.slots| == TIMER_MAX && k !in s.heap && |s.threads| > 0 && s.lock == Nobody
    ensures forall u :: 0 <= u < |s.threads| ==> s.threads[u].Idle?
    ensures forall j :: 0 <= j < k ==> s.slots[j] != None && s.slots[j] != Some(k)
    ensures k < TIMER_MAX ==> s.slots[k] == None
  {
  }

  /**
    From every initial state with a thread there is a run to a state in which all slots are taken, and on to one that
    differs from it only by a block that nobody owns, left by a create that found no slot.
  */
  lemma LeakReachable(s0: State, th: bool, ok: bool)
      returns (path: seq<State>, acts: seq<Action>, k: nat)
    requires Init(s0) && |s0.threads| > 0
    ensures IsRun(path, acts) && path[0] == s0 && k <= |acts| && None !in path[k].slots && TIMER_MAX !in path[k].heap
    ensures var s := path[k];
      path[|acts|] == s.(heap := s.heap[TIMER_MAX := GARBAGE], owner := s.owner[TIMER_MAX := Leaked])
  {
    hide Next, Enabled, Init, Solo, Filled;
    path, acts := FillUp(s0, TIMER_MAX);
    k := |acts|;
    var s := path[k];
    FilledMeans(s, TIMER_MAX);
    CallCreate(s, th);
    OneMore(path, acts, StartCreate(0, th));
    var s1 := At(s, 0, CMalloc(th));
    var end := s.(heap := s.heap[TIMER_MAX := GARBAGE], owner := s.owner[TIMER_MAX := Leaked]);
    var n := CrowdedOut(s1, 0, TIMER_MAX, ok, th);
    assert At(s1, 0, Idle).threads == s.threads;
    path, acts := SoloRun(path + [s1], acts + [StartCreate(0, th)], 0, Some(TIMER_MAX), ok, n, end);
  }
}
