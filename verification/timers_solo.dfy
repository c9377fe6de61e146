/** What timer_create and timer_delete do when nobody interferes: failure leaves no trace, and delete undoes create. */
module TimersSolo {
  import opened Memory
  import opened Timers
  import opened TimersInvariant
  import opened TimersSafety
  import opened TimersTheorems

  /** n actions of thread t alone lead from s to s'; malloc answers `alloc`, the kernel `ok`. */
  predicate Solo(s: State, t: nat, alloc: Option<Ptr>, ok: bool, n: nat, s': State)
    decreases n
  {
    if n == 0 then s == s'
    else
      && Enabled(s, Step(t, alloc, ok)) && Next(s, Step(t, alloc, ok)).Ok?
      && Solo(Next(s, Step(t, alloc, ok)).s, t, alloc, ok, n - 1, s')
  }

  lemma {:induction false} SoloAppend(s: State, s1: State, s2: State, t: nat, alloc: Option<Ptr>, ok: bool, n: nat,
    m: nat)
    requires Solo(s, t, alloc, ok, n, s1) && Solo(s1, t, alloc, ok, m, s2)
    ensures Solo(s, t, alloc, ok, n + m, s2)
    decreases n
  {
    hide Next, Enabled;
    if n > 0 {
      SoloAppend(Next(s, Step(t, alloc, ok)).s, s1, s2, t, alloc, ok, n - 1, m);
    }
  }

  lemma SoloNone(s: State, t: nat, alloc: Option<Ptr>, ok: bool)
    ensures Solo(s, t, alloc, ok, 0, s)
  {
  }

  lemma SoloOne(s: State, s1: State, s2: State, t: nat, alloc: Option<Ptr>, ok: bool, m: nat)
    requires Enabled(s, Step(t, alloc, ok)) && Next(s, Step(t, alloc, ok)) == Ok(s1) && Solo(s1, t, alloc, ok, m, s2)
    ensures Solo(s, t, alloc, ok, m + 1, s2)
  {
  }

  lemma Fresh(s: State, p: Ptr)
    requires Inv(s) && p !in s.heap
    ensures p !in s.owner && p !in s.at && |s.slots| == TIMER_MAX
  {
  }

  lemma CMallocDoes(s: State, t: nat, p: Ptr, ok: bool, th: bool)
    requires t < |s.threads| && s.threads[t] == CMalloc(th) && p !in s.heap
    ensures Enabled(s, Step(t, Some(p), ok))
    ensures Next(s, Step(t, Some(p), ok)) ==
      Ok(At(s, t, CScan(th, p, 0)).(heap := s.heap[p := GARBAGE], owner := s.owner[p := Thread(t)]))
  {
  }

  lemma CFillDoes(s: State, t: nat, alloc: Option<Ptr>, ok: bool, p: Ptr)
    requires t < |s.threads| && s.threads[t] == CFill(p) && p in s.heap
    ensures Enabled(s, Step(t, alloc, ok))
    ensures Next(s, Step(t, alloc, ok)) ==
      Ok(At(s, t, CKernel(true, p)).(heap := s.heap[p := s.heap[p].(params := true, notify := SigevThread)]))
  {
  }

  lemma CKernelDoes(s: State, t: nat, alloc: Option<Ptr>, ok: bool, th: bool, p: Ptr)
    requires t < |s.threads| && s.threads[t] == CKernel(th, p) && p in s.heap
    ensures Enabled(s, Step(t, alloc, ok))
    ensures Next(s, Step(t, alloc, ok)) == Ok(At(s, t, if !ok then FId(p, 0) else if th then CLock(p) else CNotify(p)))
  {
  }

  /** The scan for a free slot stops at the first one. */
  lemma {:induction false} ScanTo(s: State, t: nat, alloc: Option<Ptr>, ok: bool, th: bool, p: Ptr, i: nat, f: nat)
    requires t < |s.threads| && s.threads[t] == CScan(th, p, i) && |s.slots| == TIMER_MAX && i <= f <= TIMER_MAX
    requires forall j :: 0 <= j < f ==> s.slots[j] != None
    ensures Solo(s, t, alloc, ok, f - i, At(s, t, CScan(th, p, f)))
    decreases f - i
  {
    hide Next;
    if i < f {
      var s1 := At(s, t, CScan(th, p, i + 1));
      CScanDoes(s, t, alloc, ok, th, p, i);
      ScanTo(s1, t, alloc, ok, th, p, i + 1, f);
      assert At(s1, t, CScan(th, p, f)) == At(s, t, CScan(th, p, f));
      SoloOne(s, s1, At(s, t, CScan(th, p, f)), t, alloc, ok, f - i - 1);
    } else {
      assert At(s, t, CScan(th, p, f)) == s;
    }
  }

  /** The search for the timer's own slot, when freeing, stops there. */
  lemma {:induction false} FindToFree(s: State, t: nat, alloc: Option<Ptr>, ok: bool, p: Ptr, i: nat, f: nat)
    requires t < |s.threads| && s.threads[t] == FId(p, i) && |s.slots| == TIMER_MAX && i <= f < TIMER_MAX
    requires s.slots[f] == Some(p) && forall j :: 0 <= j < f ==> s.slots[j] != Some(p)
    ensures Solo(s, t, alloc, ok, f - i + 1, At(s, t, FClear(p, f)))
    decreases f - i
  {
    hide Next;
    FIdDoes(s, t, alloc, ok, p, i);
    if i < f {
      var s1 := At(s, t, FId(p, i + 1));
      FindToFree(s1, t, alloc, ok, p, i + 1, f);
      assert At(s1, t, FClear(p, f)) == At(s, t, FClear(p, f));
      SoloOne(s, s1, At(s, t, FClear(p, f)), t, alloc, ok, f - i);
    } else {
      SoloOne(s, At(s, t, FClear(p, f)), At(s, t, FClear(p, f)), t, alloc, ok, 0);
    }
  }

  /** The state after __kfreebsd_timer_free on a timer in slot f. */
  function Freed(s: State, t: nat, p: Ptr, f: nat): State
    requires t < |s.threads| && f < |s.slots|
  {
    At(s, t, Idle).(slots := s.slots[f := None], at := s.at - {p}, heap := s.heap - {p}, owner := s.owner - {p})
  }

  lemma FClearDoes(s: State, t: nat, alloc: Option<Ptr>, ok: bool, p: Ptr, i: nat)
    requires t < |s.threads| && s.threads[t] == FClear(p, i) && i < |s.slots|
    ensures Enabled(s, Step(t, alloc, ok))
    ensures Next(s, Step(t, alloc, ok)) == Ok(At(s, t, FFree(p)).(slots := s.slots[i := None], at := s.at - {p}))
  {
  }

  lemma FFreeDoes(s: State, t: nat, alloc: Option<Ptr>, ok: bool, p: Ptr)
    requires t < |s.threads| && s.threads[t] == FFree(p) && p in s.heap
    ensures Enabled(s, Step(t, alloc, ok))
    ensures Next(s, Step(t, alloc, ok)) == Ok(At(s, t, Idle).(heap := s.heap - {p}, owner := s.owner - {p}))
  {
  }

  /** __kfreebsd_timer_free on a timer in slot f. */
  lemma FreeAll(s: State, t: nat, alloc: Option<Ptr>, ok: bool, p: Ptr, f: nat) returns (n: nat)
    requires t < |s.threads| && s.threads[t] == FId(p, 0) && |s.slots| == TIMER_MAX && f < TIMER_MAX && p in s.heap
    requires s.slots[f] == Some(p) && forall j :: 0 <= j < f ==> s.slots[j] != Some(p)
    ensures Solo(s, t, alloc, ok, n, Freed(s, t, p, f))
  {
    var s1 := At(s, t, FClear(p, f));
    hide Next, Solo, Enabled;
    FindToFree(s, t, alloc, ok, p, 0, f);
    assert s1.threads[t := Idle] == s.threads[t := Idle];
    FreeFound(s1, t, alloc, ok, p, f);
    SoloAppend(s, s1, Freed(s, t, p, f), t, alloc, ok, f + 1, 2);
    n := f + 3;
  }

  lemma FreeFound(s: State, t: nat, alloc: Option<Ptr>, ok: bool, p: Ptr, f: nat)
    requires t < |s.threads| && s.threads[t] == FClear(p, f) && f < |s.slots| && p in s.heap
    ensures Solo(s, t, alloc, ok, 2, Freed(s, t, p, f))
  {
    var s1 := At(s, t, FFree(p)).(slots := s.slots[f := None], at := s.at - {p});
    var s2 := Freed(s, t, p, f);
    hide Next, Solo, Enabled;
    FClearDoes(s, t, alloc, ok, p, f);
    FFreeDoes(s1, t, alloc, ok, p);
    assert At(s1, t, Idle).threads == s2.threads;
    SoloNone(s2, t, alloc, ok);
    SoloOne(s1, s2, s2, t, alloc, ok, 0);
    SoloOne(s, s1, s2, t, alloc, ok, 1);
  }

  /** The state after the slot is reserved. */
  function Reserved(s: State, t: nat, p: Ptr, th: bool, f: nat): State
    requires t < |s.threads| && f < |s.slots|
  {
    At(s, t, if th then CFill(p) else CKernel(th, p)).(
      heap := s.heap[p := GARBAGE], owner := s.owner[p := Thread(t)],
      slots := s.slots[f := Some(p)], at := s.at[p := f])
  }

  /** From the start of the scan to the claimed slot f. */
  lemma ScanAndClaim(s: State, t: nat, alloc: Option<Ptr>, ok: bool, th: bool, p: Ptr, f: nat)
    requires t < |s.threads| && s.threads[t] == CScan(th, p, 0) && |s.slots| == TIMER_MAX && f < TIMER_MAX
    requires s.slots[f] == None && forall j :: 0 <= j < f ==> s.slots[j] != None
    ensures Solo(s, t, alloc, ok, f + 1,
                 At(s, t, if th then CFill(p) else CKernel(th, p)).(slots := s.slots[f := Some(p)], at := s.at[p := f]))
  {
    hide Next, Solo;
    var s1 := At(s, t, CScan(th, p, f));
    var pc := if th then CFill(p) else CKernel(th, p);
    var s2 := At(s, t, pc).(slots := s.slots[f := Some(p)], at := s.at[p := f]);
    ScanTo(s, t, alloc, ok, th, p, 0, f);
    CScanDoes(s1, t, alloc, ok, th, p, f);
    assert s1.threads[t := pc] == s2.threads;
    SoloNone(s2, t, alloc, ok);
    SoloOne(s1, s2, s2, t, alloc, ok, 0);
    SoloAppend(s, s1, s2, t, alloc, ok, f, 1);
  }

  /** From malloc to the reserved slot f. */
  lemma Reserve(s: State, t: nat, p: Ptr, ok: bool, th: bool, f: nat) returns (n: nat)
    requires t < |s.threads| && s.threads[t] == CMalloc(th) && |s.slots| == TIMER_MAX && p !in s.heap && f < TIMER_MAX
    requires s.slots[f] == None && forall j :: 0 <= j < f ==> s.slots[j] != None
    ensures Solo(s, t, Some(p), ok, n, Reserved(s, t, p, th, f))
  {
    hide Next, Solo;
    var s1 := At(s, t, CScan(th, p, 0)).(heap := s.heap[p := GARBAGE], owner := s.owner[p := Thread(t)]);
    var pc := if th then CFill(p) else CKernel(th, p);
    CMallocDoes(s, t, p, ok, th);
    ScanAndClaim(s1, t, Some(p), ok, th, p, f);
    assert s1.threads[t := pc] == s.threads[t := pc];
    SoloOne(s, s1, Reserved(s, t, p, th, f), t, Some(p), ok, f + 1);
    n := f + 2;
  }

  /** From the reserved slot to the refusal of the kernel. */
  lemma Refuse(s: State, t: nat, alloc: Option<Ptr>, th: bool, p: Ptr) returns (n: nat, r: Rec)
    requires t < |s.threads| && s.threads[t] == (if th then CFill(p) else CKernel(th, p)) && p in s.heap
    ensures Solo(s, t, alloc, false, n, At(s, t, FId(p, 0)).(heap := s.heap[p := r]))
  {
    hide Next;
    r := if th then s.heap[p].(params := true, notify := SigevThread) else s.heap[p];
    var s1 := At(s, t, CKernel(th, p)).(heap := s.heap[p := r]);
    var s2 := At(s, t, FId(p, 0)).(heap := s.heap[p := r]);
    CKernelDoes(s1, t, alloc, false, th, p);
    assert At(s1, t, FId(p, 0)) == s2;
    SoloOne(s1, s2, s2, t, alloc, false, 0);
    if th {
      CFillDoes(s, t, alloc, false, p);
      SoloOne(s, s1, s2, t, alloc, false, 1);
      n := 2;
    } else {
      assert s.heap[p := r] == s.heap;
      assert s == s1;
      n := 1;
    }
  }

  lemma ReservedIs(s: State, t: nat, p: Ptr, th: bool, f: nat)
    requires t < |s.threads| && f < |s.slots|
    ensures var s1 := Reserved(s, t, p, th, f);
      && s1.threads == s.threads[t := if th then CFill(p) else CKernel(th, p)] && s1.slots == s.slots[f := Some(p)]
      && p in s1.heap && s1.heap[p] == GARBAGE && s1.lock == s.lock
  {
  }

  lemma FreedIsNothing(s: State, t: nat, p: Ptr, th: bool, f: nat, r: Rec)
    requires t < |s.threads| && f < |s.slots| && s.slots[f] == None && p !in s.heap && p !in s.owner && p !in s.at
    ensures var s1 := Reserved(s, t, p, th, f);
      Freed(At(s1, t, FId(p, 0)).(heap := s1.heap[p := r]), t, p, f) == At(s, t, Idle)
  {
    assert s.slots[f := Some(p)][f := None] == s.slots && s.at[p := f] - {p} == s.at;
    assert s.heap[p := GARBAGE][p := r] - {p} == s.heap && s.owner[p := Thread(t)] - {p} == s.owner;
  }

  /** A create that the kernel refuses, with a free slot in the table: everything is as before. */
  lemma RefusedCreate(s: State, t: nat, p: Ptr, th: bool, f: nat) returns (n: nat)
    requires Inv(s) && t < |s.threads| && s.threads[t] == CMalloc(th) && p !in s.heap
    requires f < TIMER_MAX && |s.slots| == TIMER_MAX && s.slots[f] == None
    requires forall j :: 0 <= j < f ==> s.slots[j] != None
    requires forall j :: 0 <= j < f ==> s.slots[j] != Some(p)
    ensures Solo(s, t, Some(p), false, n, At(s, t, Idle))
  {
    hide Next, Inv, Solo, Reserved, Freed;
    Fresh(s, p);
    ReservedIs(s, t, p, th, f);
    var end := At(s, t, Idle);
    var n1 := Reserve(s, t, p, false, th, f);
    var s1 := Reserved(s, t, p, th, f);
    var n2, r := Refuse(s1, t, Some(p), th, p);
    var s2 := At(s1, t, FId(p, 0)).(heap := s1.heap[p := r]);
    var n3 := FreeAll(s2, t, Some(p), false, p, f);
    FreedIsNothing(s, t, p, th, f, r);
    SoloAppend(s1, s2, end, t, Some(p), false, n2, n3);
    SoloAppend(s, s1, end, t, Some(p), false, n1, n2 + n3);
    n := n1 + n2 + n3;
  }

  lemma NotInTable(s: State, p: Ptr)
    requires Inv(s) && p !in s.heap
    ensures Some(p) !in s.slots
  {
  }

  /** From the start of the scan to its end, past a full table. */
  lemma ScanInVain(s: State, t: nat, alloc: Option<Ptr>, ok: bool, th: bool, p: Ptr)
    requires t < |s.threads| && s.threads[t] == CScan(th, p, 0)
    requires |s.slots| == TIMER_MAX && forall j :: 0 <= j < TIMER_MAX ==> s.slots[j] != None
    ensures Solo(s, t, alloc, ok, TIMER_MAX + 1, At(s, t, Idle).(owner := s.owner[p := Leaked]))
  {
    hide Next, Solo;
    var s1 := At(s, t, CScan(th, p, TIMER_MAX));
    var s2 := At(s, t, Idle).(owner := s.owner[p := Leaked]);
    ScanTo(s, t, alloc, ok, th, p, 0, TIMER_MAX);
    CScanDoes(s1, t, alloc, ok, th, p, TIMER_MAX);
    assert s1.threads[t := Idle] == s2.threads;
    SoloNone(s2, t, alloc, ok);
    SoloOne(s1, s2, s2, t, alloc, ok, 0);
    SoloAppend(s, s1, s2, t, alloc, ok, TIMER_MAX, 1);
  }

  /** A create that finds the table full: the block it allocated stays behind, owned by nobody. */
  lemma CrowdedOut(s: State, t: nat, p: Ptr, ok: bool, th: bool) returns (n: nat)
    requires t < |s.threads| && s.threads[t] == CMalloc(th) && p !in s.heap
    requires |s.slots| == TIMER_MAX && forall j :: 0 <= j < TIMER_MAX ==> s.slots[j] != None
    ensures Solo(s, t, Some(p), ok, n, At(s, t, Idle).(heap := s.heap[p := GARBAGE], owner := s.owner[p := Leaked]))
  {
    hide Next, Solo;
    var s1 := At(s, t, CScan(th, p, 0)).(heap := s.heap[p := GARBAGE], owner := s.owner[p := Thread(t)]);
    var s2 := At(s, t, Idle).(heap := s.heap[p := GARBAGE], owner := s.owner[p := Leaked]);
    CMallocDoes(s, t, p, ok, th);
    ScanInVain(s1, t, Some(p), ok, th, p);
    assert s1.owner[p := Leaked] == s2.owner && s1.threads[t := Idle] == s2.threads;
    SoloOne(s, s1, s2, t, Some(p), ok, TIMER_MAX + 1);
    n := TIMER_MAX + 2;
  }

  lemma {:induction false} SoloSame(s: State, t: nat, alloc: Option<Ptr>, ok: bool, n: nat, s': State, m: nat,
    s'': State)
    requires Solo(s, t, alloc, ok, n, s') && Solo(s, t, alloc, ok, m, s'') && t < |s'.threads| && t < |s''.threads|
    requires s'.threads[t].Idle? && s''.threads[t].Idle?
    ensures s' == s''
    decreases n
  {
    hide Next;
    if n > 0 && m > 0 {
      SoloSame(Next(s, Step(t, alloc, ok)).s, t, alloc, ok, n - 1, s', m - 1, s'');
    }
  }

  // Delete undoes create.

  /** The search for the timer's id stops at its slot. */
  lemma {:induction false} FindToIssue(s: State, t: nat, alloc: Option<Ptr>, ok: bool, p: Ptr, i: nat, f: nat)
    requires t < |s.threads| && s.threads[t] == CId(p, i) && |s.slots| == TIMER_MAX && i <= f < TIMER_MAX
    requires s.slots[f] == Some(p) && forall j :: 0 <= j < f ==> s.slots[j] != Some(p)
    ensures Solo(s, t, alloc, ok, f - i + 1,
                 At(s, t, Idle).(issued := s.issued[f := p], owner := s.owner[p := Client(f)]))
    decreases f - i
  {
    hide Next;
    var end := At(s, t, Idle).(issued := s.issued[f := p], owner := s.owner[p := Client(f)]);
    CIdDoes(s, t, alloc, ok, p, i);
    if i < f {
      var s1 := At(s, t, CId(p, i + 1));
      FindToIssue(s1, t, alloc, ok, p, i + 1, f);
      assert s1.threads[t := Idle] == end.threads;
      SoloOne(s, s1, end, t, alloc, ok, f - i);
    } else {
      SoloOne(s, end, end, t, alloc, ok, 0);
    }
  }

  function Made(th: bool, head: Option<Ptr>): Rec {
    if th then Rec(SigevThread, true, head) else Rec(Other, false, None)
  }

  /** `s` with the new timer at p, listed if it is a SIGEV_THREAD timer. */
  function Listing(s: State, p: Ptr, th: bool): State {
    var s1 := s.(heap := s.heap[p := Made(th, s.head)]);
    if th then s1.(head := Some(p), active := [p] + s.active) else s1
  }

  /** From the reserved slot to the search for the id. */
  lemma Publish(s: State, t: nat, alloc: Option<Ptr>, th: bool, p: Ptr) returns (n: nat)
    requires t < |s.threads| && s.threads[t] == (if th then CFill(p) else CKernel(th, p)) && p in s.heap &&
      s.heap[p] == GARBAGE
    requires th ==> s.lock == Nobody
    ensures Solo(s, t, alloc, true, n, Listing(At(s, t, CId(p, 0)), p, th))
  {
    var end := Listing(At(s, t, CId(p, 0)), p, th);
    if th {
      n := PublishThread(s, t, alloc, p);
    } else {
      var s1 := At(s, t, CNotify(p));
      CKernelDoes(s, t, alloc, true, th, p);
      assert Next(s1, Step(t, alloc, true)) == Ok(end);
      SoloOne(s1, end, end, t, alloc, true, 0);
      SoloOne(s, s1, end, t, alloc, true, 1);
      n := 2;
    }
  }

  lemma CLockDoes(s: State, t: nat, alloc: Option<Ptr>, p: Ptr)
    requires t < |s.threads| && s.threads[t] == CLock(p) && s.lock == Nobody
    ensures Enabled(s, Step(t, alloc, true))
    ensures Next(s, Step(t, alloc, true)) == Ok(At(s, t, CNext(p)).(lock := User(t)))
  {
  }

  lemma ListingAfterLock(s: State, t: nat, p: Ptr, s3: State)
    requires t < |s.threads| && p in s.heap && s.lock == Nobody
    requires s3 == At(s, t, CNext(p)).(heap := s.heap[p := Rec(SigevThread, true, None)], lock := User(t))
    ensures Listing(At(s3, t, CId(p, 0)), p, true).(lock := Nobody) == Listing(At(s, t, CId(p, 0)), p, true)
  {
    assert s3.heap[p := Made(true, s.head)] == s.heap[p := Made(true, s.head)];
  }

  lemma PublishThread(s: State, t: nat, alloc: Option<Ptr>, p: Ptr) returns (n: nat)
    requires t < |s.threads| && s.threads[t] == CFill(p) && p in s.heap && s.heap[p] == GARBAGE && s.lock == Nobody
    ensures Solo(s, t, alloc, true, n, Listing(At(s, t, CId(p, 0)), p, true))
  {
    hide Next, Solo, Enabled, Listing;
    var s1 := At(s, t, CKernel(true, p)).(heap := s.heap[p := Rec(SigevThread, true, None)]);
    var s2 := At(s1, t, CLock(p));
    var s3 := At(s2, t, CNext(p)).(lock := User(t));
    var end := Listing(At(s, t, CId(p, 0)), p, true);
    CFillDoes(s, t, alloc, true, p);
    CKernelDoes(s1, t, alloc, true, true, p);
    CLockDoes(s2, t, alloc, p);
    n := PushAlone(s3, t, alloc, p);
    assert s3.threads == s.threads[t := CNext(p)];
    ListingAfterLock(s, t, p, s3);
    ThreeMore(s, s1, s2, s3, end, t, alloc, n);
    n := n + 3;
  }

  lemma ThreeMore(s: State, s1: State, s2: State, s3: State, end: State, t: nat, alloc: Option<Ptr>, n: nat)
    requires Enabled(s, Step(t, alloc, true)) && Next(s, Step(t, alloc, true)) == Ok(s1)
    requires Enabled(s1, Step(t, alloc, true)) && Next(s1, Step(t, alloc, true)) == Ok(s2)
    requires Enabled(s2, Step(t, alloc, true)) && Next(s2, Step(t, alloc, true)) == Ok(s3)
    requires Solo(s3, t, alloc, true, n, end)
    ensures Solo(s, t, alloc, true, n + 3, end)
  {
    hide Next, Enabled, Solo;
    SoloOne(s2, s3, end, t, alloc, true, n);
    SoloOne(s1, s2, end, t, alloc, true, n + 1);
    SoloOne(s, s1, end, t, alloc, true, n + 2);
  }

  lemma CNextDoes(s: State, t: nat, alloc: Option<Ptr>, p: Ptr)
    requires t < |s.threads| && s.threads[t] == CNext(p) && p in s.heap
    ensures Enabled(s, Step(t, alloc, true))
    ensures Next(s, Step(t, alloc, true)) ==
      Ok(At(s, t, CHead(p)).(heap := s.heap[p := s.heap[p].(next := s.head)]))
  {
  }

  lemma CHeadDoes(s: State, t: nat, alloc: Option<Ptr>, p: Ptr)
    requires t < |s.threads| && s.threads[t] == CHead(p)
    ensures Enabled(s, Step(t, alloc, true))
    ensures Next(s, Step(t, alloc, true)) == Ok(At(s, t, CUnlock(p)).(head := Some(p), active := [p] + s.active))
  {
  }

  lemma CUnlockDoes(s: State, t: nat, alloc: Option<Ptr>, p: Ptr)
    requires t < |s.threads| && s.threads[t] == CUnlock(p)
    ensures Enabled(s, Step(t, alloc, true))
    ensures Next(s, Step(t, alloc, true)) == Ok(At(s, t, CId(p, 0)).(lock := Nobody))
  {
  }

  lemma PushAlone(s: State, t: nat, alloc: Option<Ptr>, p: Ptr) returns (n: nat)
    requires t < |s.threads| && s.threads[t] == CNext(p) && p in s.heap && s.heap[p] == Rec(SigevThread, true, None)
    ensures Solo(s, t, alloc, true, n, Listing(At(s, t, CId(p, 0)), p, true).(lock := Nobody))
  {
    var s1 := At(s, t, CHead(p)).(heap := s.heap[p := Made(true, s.head)]);
    var s2 := Listing(At(s, t, CUnlock(p)), p, true);
    var s3 := Listing(At(s, t, CId(p, 0)), p, true).(lock := Nobody);
    hide Next, Solo;
    CNextDoes(s, t, alloc, p);
    CHeadDoes(s1, t, alloc, p);
    CUnlockDoes(s2, t, alloc, p);
    assert s1.threads[t := CUnlock(p)] == s2.threads && s2.threads[t := CId(p, 0)] == s3.threads;
    SoloNone(s3, t, alloc, true);
    ThreeMore(s, s1, s2, s3, s3, t, alloc, 0);
    n := 3;
  }

  /** The state after a successful create. */
  function Created(s: State, t: nat, p: Ptr, th: bool, f: nat): State
    requires t < |s.threads| && f < |s.slots|
  {
    Listing(At(s, t, Idle), p, th).(
      owner := s.owner[p := Client(f)], slots := s.slots[f := Some(p)], at := s.at[p := f], issued := s.issued[f := p])
  }

  lemma IssuedIsCreated(s: State, t: nat, p: Ptr, th: bool, f: nat, s1: State, s2: State)
    requires t < |s.threads| && f < |s.slots|
    requires s1 == Reserved(s, t, p, th, f) && s2 == Listing(At(s1, t, CId(p, 0)), p, th)
    ensures At(s2, t, Idle).(issued := s2.issued[f := p], owner := s2.owner[p := Client(f)]) == Created(s, t, p, th, f)
  {
    assert s2.threads[t := Idle] == s.threads[t := Idle];
    assert s1.heap[p := Made(th, s.head)] == s.heap[p := Made(th, s.head)];
    assert s2.owner[p := Client(f)] == s.owner[p := Client(f)];
  }

  lemma CreateAlone(s: State, t: nat, p: Ptr, th: bool, f: nat) returns (n: nat)
    requires t < |s.threads| && s.threads[t] == CMalloc(th) && p !in s.heap && |s.slots| == TIMER_MAX
    requires th ==> s.lock == Nobody
    requires f < TIMER_MAX && s.slots[f] == None
    requires forall j :: 0 <= j < f ==> s.slots[j] != None && s.slots[j] != Some(p)
    ensures Solo(s, t, Some(p), true, n, Created(s, t, p, th, f))
  {
    hide Solo, Next, Created;
    var s1 := Reserved(s, t, p, th, f);
    var s2 := Listing(At(s1, t, CId(p, 0)), p, th);
    var n1 := Reserve(s, t, p, true, th, f);
    var n2 := Publish(s1, t, Some(p), th, p);
    FindToIssue(s2, t, Some(p), true, p, 0, f);
    IssuedIsCreated(s, t, p, th, f, s1, s2);
    SoloAppend(s1, s2, Created(s, t, p, th, f), t, Some(p), true, n2, f + 1);
    SoloAppend(s, s1, Created(s, t, p, th, f), t, Some(p), true, n1, n2 + f + 1);
    n := n1 + n2 + f + 1;
  }

  lemma DLockDoes(s: State, t: nat, alloc: Option<Ptr>, p: Ptr)
    requires t < |s.threads| && s.threads[t] == DLock(p) && s.lock == Nobody
    ensures Enabled(s, Step(t, alloc, true))
    ensures Next(s, Step(t, alloc, true)) == Ok(At(s, t, DHead(p)).(lock := User(t)))
  {
  }

  lemma DHeadDoes(s: State, t: nat, alloc: Option<Ptr>, p: Ptr)
    requires t < |s.threads| && s.threads[t] == DHead(p) && p in s.heap && s.head == Some(p)
    ensures Enabled(s, Step(t, alloc, true))
    ensures Next(s, Step(t, alloc, true)) ==
      Ok(At(s, t, DUnlock(p)).(head := s.heap[p].next, active := Without(s.active, p)))
  {
    hide Without;
  }

  lemma DUnlockDoes(s: State, t: nat, alloc: Option<Ptr>, p: Ptr)
    requires t < |s.threads| && s.threads[t] == DUnlock(p)
    ensures Enabled(s, Step(t, alloc, true))
    ensures Next(s, Step(t, alloc, true)) == Ok(At(s, t, FId(p, 0)).(lock := Nobody))
  {
  }

  /** Unlinking the timer at the head of the list. */
  lemma UnlinkAlone(s: State, t: nat, alloc: Option<Ptr>, p: Ptr) returns (n: nat)
    requires t < |s.threads| && s.threads[t] == DLock(p) && p in s.heap && s.lock == Nobody && s.head == Some(p)
    ensures Solo(s, t, alloc, true, n, At(s, t, FId(p, 0)).(head := s.heap[p].next, active := Without(s.active, p)))
  {
    hide Without;
    var s1 := At(s, t, DHead(p)).(lock := User(t));
    var s2 := At(s1, t, DUnlock(p)).(head := s.heap[p].next, active := Without(s.active, p));
    var s3 := At(s, t, FId(p, 0)).(head := s.heap[p].next, active := Without(s.active, p));
    hide Next, Solo;
    DLockDoes(s, t, alloc, p);
    DHeadDoes(s1, t, alloc, p);
    DUnlockDoes(s2, t, alloc, p);
    assert s1.threads[t := DUnlock(p)] == s2.threads && s2.threads[t := FId(p, 0)] == s3.threads;
    SoloNone(s3, t, alloc, true);
    ThreeMore(s, s1, s2, s3, s3, t, alloc, 0);
    n := 3;
  }

  lemma DLookupDoes(s: State, t: nat, alloc: Option<Ptr>, p: Ptr, f: nat)
    requires t < |s.threads| && s.threads[t] == DLookup(f, p) && Slot(s, f) == Some(p)
    ensures Enabled(s, Step(t, alloc, true)) && Next(s, Step(t, alloc, true)) == Ok(At(s, t, DKernel(f, p)))
  {
  }

  lemma DKernelDoes(s: State, t: nat, alloc: Option<Ptr>, p: Ptr, f: nat)
    requires t < |s.threads| && s.threads[t] == DKernel(f, p) && p in s.heap
    ensures Enabled(s, Step(t, alloc, true)) && Next(s, Step(t, alloc, true)) == Ok(At(s, t, DNotify(p)))
  {
  }

  lemma DNotifyDoes(s: State, t: nat, alloc: Option<Ptr>, p: Ptr)
    requires t < |s.threads| && s.threads[t] == DNotify(p) && p in s.heap && s.heap[p].notify != Unset
    ensures Enabled(s, Step(t, alloc, true))
    ensures Next(s, Step(t, alloc, true)) ==
      Ok(At(s, t, if s.heap[p].notify == SigevThread then DLock(p) else FId(p, 0)))
  {
  }

  /** From timer_delete's lookup to the look at the kind of timer. */
  lemma DeleteKernel(s: State, t: nat, alloc: Option<Ptr>, p: Ptr, f: nat)
    requires t < |s.threads| && s.threads[t] == DLookup(f, p) && p in s.heap && Slot(s, f) == Some(p) &&
      s.heap[p].notify != Unset
    ensures Solo(s, t, alloc, true, 3, At(s, t, if s.heap[p].notify == SigevThread then DLock(p) else FId(p, 0)))
  {
    var s1 := At(s, t, DKernel(f, p));
    var s2 := At(s, t, DNotify(p));
    var s3 := At(s, t, if s.heap[p].notify == SigevThread then DLock(p) else FId(p, 0));
    hide Next, Solo;
    DLookupDoes(s, t, alloc, p, f);
    DKernelDoes(s1, t, alloc, p, f);
    DNotifyDoes(s2, t, alloc, p);
    assert s1.threads[t := DNotify(p)] == s2.threads && s2.threads[t := s3.threads[t]] == s3.threads;
    SoloNone(s3, t, alloc, true);
    ThreeMore(s, s1, s2, s3, s3, t, alloc, 0);
  }

  /** The state in which timer_delete frees its timer. */
  function Unlinked(s: State, t: nat, p: Ptr): State
    requires t < |s.threads| && p in s.heap
  {
    if s.heap[p].notify == SigevThread then At(s, t, FId(p, 0)).(head := s.heap[p].next, active := Without(s.active, p))
    else At(s, t, FId(p, 0))
  }

  /** From timer_delete's lookup to its free. */
  lemma DeleteAlone(s: State, t: nat, alloc: Option<Ptr>, p: Ptr, f: nat) returns (n: nat)
    requires t < |s.threads| && s.threads[t] == DLookup(f, p) && p in s.heap && s.lock == Nobody &&
      Slot(s, f) == Some(p)
    requires s.heap[p].notify != Unset && (s.heap[p].notify == SigevThread ==> s.head == Some(p))
    ensures Solo(s, t, alloc, true, n, Unlinked(s, t, p))
  {
    hide Next, Solo;
    DeleteKernel(s, t, alloc, p, f);
    n := 3;
    if s.heap[p].notify == SigevThread {
      var s3 := At(s, t, DLock(p));
      var m := UnlinkAlone(s3, t, alloc, p);
      assert At(s3, t, FId(p, 0)).(head := s.heap[p].next, active := Without(s.active, p)) == Unlinked(s, t, p);
      SoloAppend(s, s3, Unlinked(s, t, p), t, alloc, true, 3, m);
      n := 3 + m;
    }
  }

  /** The state in which timer_delete has been called on a timer just created. */
  function Deleting(s: State, t: nat, p: Ptr, th: bool, f: nat): State
    requires t < |s.threads| && f < |s.slots|
  {
    At(Listing(s, p, th), t, DLookup(f, p)).(
      owner := s.owner[p := Thread(t)], slots := s.slots[f := Some(p)], at := s.at[p := f])
  }

  lemma DeleteStarts(s: State, t: nat, p: Ptr, th: bool, f: nat)
    requires t < |s.threads| && f < |s.slots| && f !in s.issued
    ensures var c := Created(s, t, p, th, f);
      Enabled(c, StartDelete(t, f)) && Next(c, StartDelete(t, f)) == Ok(Deleting(s, t, p, th, f))
  {
    var c := Created(s, t, p, th, f);
    assert c.issued - {f} == s.issued;
    assert c.owner[p := Thread(t)] == s.owner[p := Thread(t)];
    assert At(c, t, DLookup(f, p)).threads == At(s, t, DLookup(f, p)).threads;
  }

  lemma UnlinkedIs(s: State, t: nat, p: Ptr, th: bool, f: nat, s0: State)
    requires t < |s.threads| && f < |s.slots| && s0 == Deleting(s, t, p, th, f)
    ensures t < |s0.threads| && p in s0.heap
    ensures Unlinked(s0, t, p) == At(s, t, FId(p, 0)).(
      heap := s.heap[p := Made(th, s.head)], owner := s.owner[p := Thread(t)],
      slots := s.slots[f := Some(p)], at := s.at[p := f])
  {
    assert s0.threads[t := FId(p, 0)] == s.threads[t := FId(p, 0)];
    if th { assert Without([p] + s.active, p) == s.active; }
  }

  lemma FreedIsAsBefore(s: State, t: nat, p: Ptr, f: nat, r: Rec, s1: State)
    requires t < |s.threads| && f < |s.slots| && s.slots[f] == None && p !in s.heap && p !in s.owner && p !in s.at
    requires s1 == At(s, t, FId(p, 0)).(
      heap := s.heap[p := r], owner := s.owner[p := Thread(t)], slots := s.slots[f := Some(p)], at := s.at[p := f])
    ensures Freed(s1, t, p, f) == At(s, t, Idle)
  {
    assert s1.slots[f := None] == s.slots && s1.at - {p} == s.at;
    assert s1.heap - {p} == s.heap && s1.owner - {p} == s.owner;
    assert s1.threads[t := Idle] == s.threads[t := Idle];
  }

  lemma DeleteCreated(s: State, t: nat, p: Ptr, th: bool, f: nat) returns (m: nat)
    requires t < |s.threads| && |s.slots| == TIMER_MAX && f < TIMER_MAX && s.slots[f] == None && s.lock == Nobody
    requires p !in s.heap && p !in s.owner && p !in s.at && Some(p) !in s.slots
    ensures Solo(Deleting(s, t, p, th, f), t, None, true, m, At(s, t, Idle))
  {
    hide Next, Solo, Without;
    var s0 := Deleting(s, t, p, th, f);
    UnlinkedIs(s, t, p, th, f, s0);
    var s1 := Unlinked(s0, t, p);
    var m1 := DeleteAlone(s0, t, None, p, f);
    hide Unlinked, Deleting;
    var m2 := FreeAll(s1, t, None, true, p, f);
    FreedIsAsBefore(s, t, p, f, Made(th, s.head), s1);
    SoloAppend(s0, s1, At(s, t, Idle), t, None, true, m1, m2);
    m := m1 + m2;
  }

  lemma NeverIssued(s: State, f: nat)
    requires Inv(s) && f < |s.slots| && s.slots[f] == None
    ensures f !in s.issued
  {
  }

  /** Creating a timer and deleting it again, undisturbed, brings back table, list and heap. */
  lemma DeleteUndoesCreate(s: State, t: nat, p: Ptr, th: bool) returns (f: nat, n: nat, m: nat)
    requires Inv(s) && t < |s.threads| && s.threads[t] == CMalloc(th) && p !in s.heap && s.lock == Nobody &&
      None in s.slots
    ensures f < |s.slots| && Solo(s, t, Some(p), true, n, Created(s, t, p, th, f))
    ensures Enabled(Created(s, t, p, th, f), StartDelete(t, f)) && Next(Created(s, t, p, th, f), StartDelete(t, f)).Ok?
    ensures Solo(Next(Created(s, t, p, th, f), StartDelete(t, f)).s, t, None, true, m, At(s, t, Idle))
  {
    hide Inv, Solo, Next, Created, Deleting;
    FirstIs(s.slots, None);
    Fresh(s, p);
    NotInTable(s, p);
    f := First(s.slots, None);
    NeverIssued(s, f);
    n := CreateAlone(s, t, p, th, f);
    DeleteStarts(s, t, p, th, f);
    m := DeleteCreated(s, t, p, th, f);
  }

  lemma RefusedDoes(s: State, t: nat, alloc: Option<Ptr>, p: Ptr, id: nat)
    requires t < |s.threads| && s.threads[t] == DKernel(id, p) && p in s.heap
    ensures Enabled(s, Step(t, alloc, false))
    ensures Next(s, Step(t, alloc, false)) ==
      Ok(At(s, t, Idle).(issued := s.issued[id := p], owner := s.owner[p := Client(id)]))
  {
  }

  lemma FindsTimer(s: State, t: nat, alloc: Option<Ptr>, p: Ptr, id: nat)
    requires t < |s.threads| && s.threads[t] == DLookup(id, p) && Slot(s, id) == Some(p)
    ensures Enabled(s, Step(t, alloc, false)) && Next(s, Step(t, alloc, false)) == Ok(At(s, t, DKernel(id, p)))
  {
  }

  lemma DeleteCalled(s: State, t: nat, id: nat)
    requires t < |s.threads| && s.threads[t].Idle? && id in s.issued
    ensures var p := s.issued[id];
      && Enabled(s, StartDelete(t, id))
      && Next(s, StartDelete(t, id)) ==
           Ok(At(s, t, DLookup(id, p)).(issued := s.issued - {id}, owner := s.owner[p := Thread(t)]))
  {
  }

  lemma IssuedSlot(s: State, id: nat)
    requires Inv(s) && id in s.issued
    ensures var p := s.issued[id];
      p in s.heap && p in s.owner && s.owner[p] == Client(id) && Slot(s, id) == Some(p)
  {
    Issued(s, id);
  }

  /** A delete that the kernel refuses changes nothing: the id still names its timer. */
  lemma RefusedDelete(s: State, t: nat, id: nat, alloc: Option<Ptr>)
    requires Inv(s) && t < |s.threads| && s.threads[t].Idle? && id in s.issued
    ensures Enabled(s, StartDelete(t, id)) && Next(s, StartDelete(t, id)).Ok?
    ensures Solo(Next(s, StartDelete(t, id)).s, t, alloc, false, 2, s)
  {
    hide Inv, Solo, Next, Enabled;
    var p := s.issued[id];
    var s1 := At(s, t, DLookup(id, p)).(issued := s.issued - {id}, owner := s.owner[p := Thread(t)]);
    IssuedSlot(s, id);
    DeleteCalled(s, t, id);
    var s2 := At(s1, t, DKernel(id, p));
    FindsTimer(s1, t, alloc, p, id);
    RefusedDoes(s2, t, alloc, p, id);
    assert s2.threads[t := Idle] == s.threads;
    assert s2.issued[id := p] == s.issued && s2.owner[p := Client(id)] == s.owner;
    SoloNone(s, t, alloc, false);
    SoloOne(s2, s, s, t, alloc, false, 0);
    SoloOne(s1, s2, s, t, alloc, false, 1);
  }

  // Failing creates.

  /** A SIGEV_THREAD create that finds the lock taken, and nobody there to give it back, does not end. */
  lemma StuckAtLock(s: State, t: nat, p: Ptr, f: nat) returns (n: nat, mid: State)
    requires t < |s.threads| && s.threads[t] == CMalloc(true) && p !in s.heap && |s.slots| == TIMER_MAX
    requires f < TIMER_MAX && s.slots[f] == None
    requires forall j :: 0 <= j < f ==> s.slots[j] != None && s.slots[j] != Some(p)
    requires s.lock != Nobody
    ensures Solo(s, t, Some(p), true, n, mid) && t < |mid.threads| && mid.threads[t].CLock? && mid.lock != Nobody
  {
    hide Solo, Next;
    var s1 := Reserved(s, t, p, true, f);
    var s2 := At(s1, t, CKernel(true, p)).(heap := s1.heap[p := s1.heap[p].(params := true, notify := SigevThread)]);
    mid := At(s2, t, CLock(p));
    n := Reserve(s, t, p, true, true, f);
    CFillDoes(s1, t, Some(p), true, p);
    CKernelDoes(s2, t, Some(p), true, true, p);
    SoloNone(mid, t, Some(p), true);
    SoloOne(s2, mid, mid, t, Some(p), true, 0);
    SoloOne(s1, s2, mid, t, Some(p), true, 1);
    SoloAppend(s, s1, mid, t, Some(p), true, n, 2);
    n := n + 2;
  }

  lemma {:induction false} NotPastLock(s: State, t: nat, alloc: Option<Ptr>, ok: bool, n: nat, mid: State, m: nat,
    s': State)
    requires Solo(s, t, alloc, ok, n, mid) && t < |mid.threads| && mid.threads[t].CLock? && mid.lock != Nobody
    requires Solo(s, t, alloc, ok, m, s') && t < |s'.threads|
    ensures !s'.threads[t].Idle?
    decreases n
  {
    hide Next;
    if n > 0 && m > 0 {
      NotPastLock(Next(s, Step(t, alloc, ok)).s, t, alloc, ok, n - 1, mid, m - 1, s');
    }
  }

  /** A create that gets memory, a slot and the kernel's consent ends with its timer at the first free slot. */
  lemma SuccessIssues(s: State, t: nat, p: Ptr, th: bool, n: nat, s': State)
    requires Inv(s) && t < |s.threads| && s.threads[t] == CMalloc(th) && p !in s.heap && None in s.slots
    requires Solo(s, t, Some(p), true, n, s') && t < |s'.threads| && s'.threads[t].Idle?
    ensures First(s.slots, None) < |s.slots| && First(s.slots, None) !in s.issued
    ensures s' == Created(s, t, p, th, First(s.slots, None)) && s'.issued != s.issued
  {
    hide Inv, Solo, Next;
    FirstIs(s.slots, None);
    Fresh(s, p);
    NotInTable(s, p);
    var f := First(s.slots, None);
    NeverIssued(s, f);
    var c := Created(s, t, p, th, f);
    assert t < |c.threads| && c.threads[t].Idle? && f in c.issued;
    hide Created;
    if th && s.lock != Nobody {
      var m, mid := StuckAtLock(s, t, p, f);
      NotPastLock(s, t, Some(p), true, m, mid, n, s');
    } else {
      var m := CreateAlone(s, t, p, th, f);
      SoloSame(s, t, Some(p), true, n, s', m, c);
    }
  }

  lemma NoMemory(s: State, t: nat, ok: bool)
    requires t < |s.threads| && s.threads[t].CMalloc?
    ensures Solo(s, t, None, ok, 1, At(s, t, Idle))
  {
    hide Solo;
    SoloNone(At(s, t, Idle), t, None, ok);
    SoloOne(s, At(s, t, Idle), At(s, t, Idle), t, None, ok, 0);
  }

  /**
    A create that nobody disturbs and that fails, whatever the kernel would answer, leaves the registry exactly as it
    was if and only if malloc failed or the table had a free slot.  It fails if it ends without an id.
  */
  lemma FailureLeavesNoTrace(s: State, t: nat, alloc: Option<Ptr>, ok: bool, th: bool, n: nat, s': State)
    requires Inv(s) && t < |s.threads| && s.threads[t] == CMalloc(th) && (alloc.Some? ==> alloc.value !in s.heap)
    requires Solo(s, t, alloc, ok, n, s') && t < |s'.threads| && s'.threads[t].Idle? && s'.issued == s.issued
    ensures s' == At(s, t, Idle) <==> alloc == None || None in s.slots
  {
    hide Inv, Solo, Next;
    if alloc == None {
      NoMemory(s, t, ok);
      SoloSame(s, t, alloc, ok, n, s', 1, At(s, t, Idle));
    } else {
      FirstIs(s.slots, None);
      var f := First(s.slots, None);
      Fresh(s, alloc.value);
      NotInTable(s, alloc.value);
      if f >= TIMER_MAX {
        var end := At(s, t, Idle).(heap := s.heap[alloc.value := GARBAGE], owner := s.owner[alloc.value := Leaked]);
        var m := CrowdedOut(s, t, alloc.value, ok, th);
        SoloSame(s, t, alloc, ok, n, s', m, end);
        assert alloc.value in s'.heap && alloc.value !in s.heap;
      } else if ok {
        SuccessIssues(s, t, alloc.value, th, n, s');
      } else {
        var m := RefusedCreate(s, t, alloc.value, th, f);
        SoloSame(s, t, alloc, ok, n, s', m, At(s, t, Idle));
      }
    }
  }
}
