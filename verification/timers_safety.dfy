/** No action of the timer registry faults, in any reachable state, and every action keeps the invariant. */
module TimersSafety {
  import opened Memory
  import opened Timers
  import opened TimersInvariant
  import opened TimersFrame

  /** The action succeeds and keeps the invariant. */
  ghost predicate Good(o: Outcome) { o.Ok? && Inv(o.s) }

  /** What threads know of their timers does not depend on the lock or the helper. */
  lemma SameLocals(s: State, s': State)
    requires Locals(s) && s'.heap == s.heap && s'.at == s.at && s'.head == s.head && s'.active == s.active
    requires |s'.threads| == |s.threads|
    requires forall u :: 0 <= u < |s.threads| ==> s'.threads[u] == s.threads[u] || s'.threads[u].Mine() == None
    ensures Locals(s')
  {
    hide Before;
    forall u | 0 <= u < |s'.threads| ensures PcOk(s', s'.threads[u]) {
      assert PcOk(s, s.threads[u]);
    }
  }

  /** A thread without a timer goes to a place without a timer. */
  lemma FrameIdle(s: State, t: nat, pc: Pc)
    requires Inv(s) && t < |s.threads| && s.threads[t].Mine() == None && pc.Mine() == None
    ensures Inv(At(s, t, pc))
  {
    hide Ownership, List, Locals;
    SameLocals(s, At(s, t, pc));
    IdleOwnership(s, t, pc);
    IdleList(s, t, pc);
  }

  lemma IdleOwnership(s: State, t: nat, pc: Pc)
    requires Ownership(s) && t < |s.threads| && s.threads[t].Mine() == None && pc.Mine() == None
    ensures Ownership(At(s, t, pc))
  {
  }

  lemma IdleList(s: State, t: nat, pc: Pc)
    requires Ownership(s) && List(s) && t < |s.threads| && s.threads[t].Mine() == None && pc.Mine() == None
    ensures List(At(s, t, pc))
  {
    hide Chain, Distinct;
    var s' := At(s, t, pc);
    forall q ensures q in s'.active <==> Listed(s', q) {
      assert q in s.active <==> Listed(s, q);
    }
  }

  /** Thread t's timer is its own. */
  lemma Own(s: State, t: nat, p: Ptr)
    requires Inv(s) && t < |s.threads| && s.threads[t].Mine() == Some(p)
    ensures p in s.owner && s.owner[p] == Thread(t) && p in s.heap && PcOk(s, s.threads[t]) && |s.slots| == TIMER_MAX
    ensures p in s.active <==> ListedBy(s.threads[t], s.heap[p].notify)
    ensures p in s.active ==> s.heap[p].params && s.heap[p].notify == SigevThread
    ensures s.threads[t].Locked() <==> s.lock == User(t)
    ensures SlotOk(s, p)
  {
    assert Listed(s, p) <==> p in s.active;
  }

  lemma Alone(s: State, t: nat, p: Ptr)
    requires Inv(s) && t < |s.threads| && s.threads[t].Mine() == Some(p)
    ensures forall u :: 0 <= u < |s.threads| && u != t ==> s.threads[u].Mine() != Some(p)
    ensures forall id :: id in s.issued ==> s.issued[id] != p
    ensures SlotOk(s, p) && Mutex(s)
  {
  }

  lemma SamePcOk(s: State, s': State, pc: Pc)
    requires s'.heap == s.heap && s'.at == s.at && s'.head == s.head && s'.active == s.active
    ensures PcOk(s, pc) <==> PcOk(s', pc)
  {
    hide Before;
  }

  /** Thread t goes on with its timer, changing nothing shared. */
  lemma Stay(s: State, t: nat, p: Ptr, pc: Pc)
    requires Inv(s) && t < |s.threads| && s.threads[t].Mine() == Some(p) && pc.Mine() == Some(p)
    requires PcOk(s, pc) && pc.Locked() == s.threads[t].Locked()
    requires p in s.heap ==> (ListedBy(pc, s.heap[p].notify) <==> ListedBy(s.threads[t], s.heap[p].notify))
    ensures Inv(At(s, t, pc))
  {
    hide Inv, Ownership, Table, List, Locals, HelperOk, Chain, Distinct, Before, Without;
    Own(s, t, p);
    Alone(s, t, p);
    SamePcOk(s, At(s, t, pc), pc);
    hide PcOk;
    Frame(s, At(s, t, pc), t, p);
  }

  /** It writes its timer, which is not on the list. */
  lemma Write(s: State, t: nat, p: Ptr, pc: Pc, r: Rec)
    requires Inv(s) && t < |s.threads| && s.threads[t].Mine() == Some(p) && pc.Mine() == Some(p)
    requires pc.Locked() == s.threads[t].Locked() && PcOk(At(s, t, pc).(heap := s.heap[p := r]), pc)
    requires p in s.heap ==> !ListedBy(s.threads[t], s.heap[p].notify) && !ListedBy(pc, r.notify)
    ensures Inv(At(s, t, pc).(heap := s.heap[p := r]))
  {
    hide Inv, Ownership, Table, List, Locals, HelperOk, Chain, Distinct, Before, Without;
    Own(s, t, p);
    Alone(s, t, p);
    Frame(s, At(s, t, pc).(heap := s.heap[p := r]), t, p);
  }

  /** It takes a free slot. */
  lemma Claim(s: State, t: nat, p: Ptr, pc: Pc, i: nat)
    requires Inv(s) && t < |s.threads| && s.threads[t].Mine() == Some(p) && pc.Mine() == Some(p) &&
      s.threads[t].CScan? && !pc.Locked()
    requires i < |s.slots| && s.slots[i] == None
    requires PcOk(At(s, t, pc).(slots := s.slots[i := Some(p)], at := s.at[p := i]), pc) && forall n :: !ListedBy(pc, n)
    ensures Inv(At(s, t, pc).(slots := s.slots[i := Some(p)], at := s.at[p := i]))
  {
    hide Inv, Ownership, Table, List, Locals, HelperOk, Chain, Distinct, Before, Without;
    Own(s, t, p);
    Alone(s, t, p);
    var s' := At(s, t, pc).(slots := s.slots[i := Some(p)], at := s.at[p := i]);
    assert Touches(s, s', t, p) by { hide OwnerOk, SlotOk, PcOk, ListedBy; }
    assert OwnerOk(s', t, p) by { hide Touches, PcOk, ListedBy; }
    assert SlotOk(s', p) by { hide Touches, OwnerOk, PcOk, ListedBy; }
    hide Touches, OwnerOk, SlotOk;
    Frame(s, s', t, p);
  }

  lemma UnclaimTouches(s: State, t: nat, p: Ptr)
    requires Inv(s) && t < |s.threads| && s.threads[t].Mine() == Some(p) && s.threads[t].FClear?
    ensures Touches(s, At(s, t, FFree(p)).(slots := s.slots[s.threads[t].i := None], at := s.at - {p}), t, p)
  {
    hide Inv, Ownership, Table, List, Locals, HelperOk, Chain, Distinct, Before, Without;
    Own(s, t, p);
    Alone(s, t, p);
  }

  lemma UnclaimOwner(s: State, t: nat, p: Ptr)
    requires Inv(s) && t < |s.threads| && s.threads[t].Mine() == Some(p) && s.threads[t].FClear?
    ensures OwnerOk(At(s, t, FFree(p)).(slots := s.slots[s.threads[t].i := None], at := s.at - {p}), t, p) &&
      SlotOk(At(s, t, FFree(p)).(slots := s.slots[s.threads[t].i := None], at := s.at - {p}), p)
  {
    hide Inv, Ownership, Table, List, Locals, HelperOk, Chain, Distinct, Before, Without;
    Own(s, t, p);
    Alone(s, t, p);
  }

  /** It gives its slot back. */
  lemma Unclaim(s: State, t: nat, p: Ptr)
    requires Inv(s) && t < |s.threads| && s.threads[t].Mine() == Some(p) && s.threads[t].FClear?
    ensures Inv(At(s, t, FFree(p)).(slots := s.slots[s.threads[t].i := None], at := s.at - {p}))
  {
    hide Inv, Touches, OwnerOk, SlotOk, Ownership, Table, List, Locals, HelperOk, Chain, Distinct, Before, Without;
    Own(s, t, p);
    Alone(s, t, p);
    UnclaimTouches(s, t, p);
    UnclaimOwner(s, t, p);
    Frame(s, At(s, t, FFree(p)).(slots := s.slots[s.threads[t].i := None], at := s.at - {p}), t, p);
  }

  /** It frees its block. */
  lemma Release(s: State, t: nat, p: Ptr)
    requires Inv(s) && t < |s.threads| && s.threads[t].Mine() == Some(p) && s.threads[t].FFree?
    ensures Inv(At(s, t, Idle).(heap := s.heap - {p}, owner := s.owner - {p}))
  {
    hide Inv, Ownership, Table, List, Locals, HelperOk, Chain, Distinct, Before, Without;
    Own(s, t, p);
    Alone(s, t, p);
    Frame(s, At(s, t, Idle).(heap := s.heap - {p}, owner := s.owner - {p}), t, p);
  }

  /** It loses its block: the table was full. */
  lemma Leak(s: State, t: nat, p: Ptr)
    requires Inv(s) && t < |s.threads| && s.threads[t].Mine() == Some(p) && s.threads[t].CScan?
    ensures Inv(At(s, t, Idle).(owner := s.owner[p := Leaked]))
  {
    hide Inv, Ownership, Table, List, Locals, HelperOk, Chain, Distinct, Before, Without;
    Own(s, t, p);
    Alone(s, t, p);
    Frame(s, At(s, t, Idle).(owner := s.owner[p := Leaked]), t, p);
  }

  lemma NotIssued(s: State, t: nat, p: Ptr, id: nat)
    requires Inv(s) && t < |s.threads| && s.threads[t].Mine() == Some(p) && p in s.at && s.at[p] == id
    ensures id !in s.issued
  {
  }

  lemma IssueTouches(s: State, t: nat, p: Ptr, id: nat)
    requires Inv(s) && t < |s.threads| && s.threads[t].Mine() == Some(p) &&
      (s.threads[t].CId? || s.threads[t].DKernel?) && p in s.at && s.at[p] == id
    ensures Touches(s, At(s, t, Idle).(issued := s.issued[id := p], owner := s.owner[p := Client(id)]), t, p)
  {
    hide Inv, Ownership, Table, List, Locals, HelperOk, Chain, Distinct, Before, Without;
    Own(s, t, p);
    Alone(s, t, p);
    NotIssued(s, t, p, id);
  }

  lemma IssueOwner(s: State, t: nat, p: Ptr, id: nat)
    requires Inv(s) && t < |s.threads| && s.threads[t].Mine() == Some(p) &&
      (s.threads[t].CId? || s.threads[t].DKernel?) && p in s.at && s.at[p] == id
    ensures OwnerOk(At(s, t, Idle).(issued := s.issued[id := p], owner := s.owner[p := Client(id)]), t, p) &&
      SlotOk(At(s, t, Idle).(issued := s.issued[id := p], owner := s.owner[p := Client(id)]), p)
  {
    hide Inv, Ownership, Table, List, Locals, HelperOk, Chain, Distinct, Before, Without;
    Own(s, t, p);
    Alone(s, t, p);
  }

  /** It hands its timer to the program. */
  lemma Issue(s: State, t: nat, p: Ptr, id: nat)
    requires Inv(s) && t < |s.threads| && s.threads[t].Mine() == Some(p) &&
      (s.threads[t].CId? || s.threads[t].DKernel?) && p in s.at && s.at[p] == id
    ensures Inv(At(s, t, Idle).(issued := s.issued[id := p], owner := s.owner[p := Client(id)]))
  {
    hide Inv, Touches, OwnerOk, SlotOk, Ownership, Table, List, Locals, HelperOk, Chain, Distinct, Before, Without;
    Own(s, t, p);
    Alone(s, t, p);
    IssueTouches(s, t, p, id);
    IssueOwner(s, t, p, id);
    Frame(s, At(s, t, Idle).(issued := s.issued[id := p], owner := s.owner[p := Client(id)]), t, p);
  }

  /** It leaves the locked section. */
  lemma Unlock(s: State, t: nat, p: Ptr, pc: Pc)
    requires Inv(s) && t < |s.threads| && s.threads[t].Mine() == Some(p) && pc.Mine() == Some(p) &&
      (s.threads[t].CUnlock? || s.threads[t].DUnlock?)
    requires !pc.Locked() && PcOk(At(s, t, pc).(lock := Nobody), pc)
    requires p in s.heap ==> (ListedBy(pc, s.heap[p].notify) <==> ListedBy(s.threads[t], s.heap[p].notify))
    ensures Inv(At(s, t, pc).(lock := Nobody))
  {
    hide Inv, Ownership, Table, List, Locals, HelperOk, Chain, Distinct, Before, Without;
    Own(s, t, p);
    Alone(s, t, p);
    Frame(s, At(s, t, pc).(lock := Nobody), t, p);
  }

  /** It enters the locked section. */
  lemma Lock(s: State, t: nat, p: Ptr, pc: Pc)
    requires Inv(s) && t < |s.threads| && s.threads[t].Mine() == Some(p) && pc.Mine() == Some(p) &&
      !s.threads[t].Locked() && s.lock == Nobody
    requires pc.Locked() && PcOk(At(s, t, pc).(lock := User(t)), pc)
    requires p in s.heap ==> (ListedBy(pc, s.heap[p].notify) <==> ListedBy(s.threads[t], s.heap[p].notify))
    ensures Inv(At(s, t, pc).(lock := User(t)))
  {
    hide Inv, Ownership, Table, List, Locals, HelperOk, Chain, Distinct, Before, Without, PcOk;
    Own(s, t, p);
    Alone(s, t, p);
    Frame(s, At(s, t, pc).(lock := User(t)), t, p);
  }

  /** A block that is not allocated is nobody's. */
  lemma Unknown(s: State, p: Ptr)
    requires Inv(s) && p !in s.heap
    ensures p !in s.owner && p !in s.at && p !in s.active && |s.slots| == TIMER_MAX && SlotOk(s, p) && Mutex(s)
    ensures forall u :: 0 <= u < |s.threads| ==> s.threads[u].Mine() != Some(p)
    ensures forall id :: id in s.issued ==> s.issued[id] != p
  {
  }

  /** A fresh block. */
  lemma Allocate(s: State, t: nat, p: Ptr, th: bool)
    requires Inv(s) && t < |s.threads| && s.threads[t] == CMalloc(th) && p !in s.heap
    ensures Inv(At(s, t, CScan(th, p, 0)).(heap := s.heap[p := GARBAGE], owner := s.owner[p := Thread(t)]))
  {
    hide Inv, Ownership, Table, List, Locals, HelperOk, Chain, Distinct, Before, Without;
    Unknown(s, p);
    Frame(s, At(s, t, CScan(th, p, 0)).(heap := s.heap[p := GARBAGE], owner := s.owner[p := Thread(t)]), t, p);
  }

  /** The id leads to its timer, and nobody works on that timer. */
  lemma Issued(s: State, id: nat)
    requires Inv(s) && id in s.issued
    ensures var p := s.issued[id];
      && p in s.owner && s.owner[p] == Client(id) && p in s.heap
      && p in s.at && s.at[p] == id && s.heap[p].notify != Unset
      && (p in s.active <==> s.heap[p].notify == SigevThread)
      && SlotOk(s, p) && Mutex(s)
      && (Listed(s, p) <==> p in s.active)
    ensures forall u :: 0 <= u < |s.threads| ==> s.threads[u].Mine() != Some(s.issued[id])
    ensures forall i :: i in s.issued && s.issued[i] == s.issued[id] ==> i == id
  {
  }

  /** The program gives an id to timer_delete. */
  lemma TakeBack(s: State, t: nat, id: nat)
    requires Inv(s) && t < |s.threads| && s.threads[t].Idle? && id in s.issued
    ensures var p := s.issued[id];
      Inv(At(s, t, DLookup(id, p)).(issued := s.issued - {id}, owner := s.owner[p := Thread(t)]))
  {
    hide Inv, Ownership, Table, List, Locals, HelperOk, Chain, Distinct, Before, Without;
    var p := s.issued[id];
    Issued(s, id);
    Frame(s, At(s, t, DLookup(id, p)).(issued := s.issued - {id}, owner := s.owner[p := Thread(t)]), t, p);
  }

  // Changes to the list, by the thread that holds the lock.

  ghost predicate ListMove(s: State, s': State, t: nat, p: Ptr) {
    && t < |s.threads| == |s'.threads| && s.lock == User(t)
    && s.threads[t].Mine() == Some(p) && s'.threads[t].Mine() == Some(p) && s'.threads[t].Locked()
    && s' == s.(threads := s.threads[t := s'.threads[t]], heap := s'.heap, head := s'.head, active := s'.active)
    && s'.heap.Keys == s.heap.Keys
    && (forall q :: q in s.heap ==> s'.heap[q].notify == s.heap[q].notify && s'.heap[q].params == s.heap[q].params)
  }

  lemma ListMoveOwnership(s: State, s': State, t: nat, p: Ptr)
    requires Ownership(s) && Table(s) && ListMove(s, s', t, p)
    ensures Ownership(s') && Table(s')
  {
  }

  lemma ListMoveLocals(s: State, s': State, t: nat, p: Ptr)
    requires Locals(s) && Mutex(s) && HelperOk(s) && ListMove(s, s', t, p) && PcOk(s', s'.threads[t])
    ensures Locals(s') && Mutex(s') && HelperOk(s')
  {
    hide Before;
    forall u | 0 <= u < |s'.threads| ensures PcOk(s', s'.threads[u]) {
      if u != t {
        assert PcOk(s, s.threads[u]) && !s.threads[u].Locked();
      }
    }
  }

  /** Only p's place on the list may change. */
  lemma ListMoveMembers(s: State, s': State, t: nat, p: Ptr)
    requires Ownership(s) && List(s) && ListMove(s, s', t, p)
    requires Chain(s'.head, s'.heap, s'.active) && Distinct(s'.active)
    requires forall q :: q != p ==> (q in s'.active <==> q in s.active)
    requires p in s'.active <==> ListedBy(s'.threads[t], s.heap[p].notify)
    requires p in s'.active ==> s.heap[p].params && s.heap[p].notify == SigevThread
    ensures List(s')
  {
    hide Chain, Distinct;
    forall q ensures q in s'.active <==> Listed(s', q) {
      assert q in s.active <==> Listed(s, q);
    }
  }

  lemma MoveList(s: State, s': State, t: nat, p: Ptr)
    requires Inv(s) && ListMove(s, s', t, p) && PcOk(s', s'.threads[t])
    requires Chain(s'.head, s'.heap, s'.active) && Distinct(s'.active)
    requires forall q :: q != p ==> (q in s'.active <==> q in s.active)
    requires p in s'.active <==> ListedBy(s'.threads[t], s.heap[p].notify)
    requires p in s'.active ==> s.heap[p].params && s.heap[p].notify == SigevThread
    ensures Inv(s')
  {
    ListMoveOwnership(s, s', t, p);
    ListMoveLocals(s, s', t, p);
    ListMoveMembers(s, s', t, p);
  }

  lemma PushChain(s: State, p: Ptr)
    requires Inv(s) && p in s.heap && s.heap[p].next == s.head && p !in s.active
    ensures Chain(Some(p), s.heap, [p] + s.active) && Distinct([p] + s.active)
  {
    assert ([p] + s.active)[1..] == s.active;
  }

  /** `__active_timer_sigev_thread = newp` */
  lemma Push(s: State, t: nat, p: Ptr)
    requires Inv(s) && t < |s.threads| && s.threads[t] == CHead(p)
    ensures Inv(At(s, t, CUnlock(p)).(head := Some(p), active := [p] + s.active))
  {
    hide Inv, Ownership, Table, List, Locals, HelperOk, Mutex, Chain, Distinct, Before, Without, Listed;
    Own(s, t, p);
    PushChain(s, p);
    MoveList(s, At(s, t, CUnlock(p)).(head := Some(p), active := [p] + s.active), t, p);
  }

  lemma PopChain(s: State, p: Ptr)
    requires Inv(s) && s.head == Some(p) && p in s.heap && p in s.active
    ensures Chain(s.heap[p].next, s.heap, Without(s.active, p)) && Distinct(Without(s.active, p))
    ensures forall x :: x in Without(s.active, p) <==> x in s.active && x != p
  {
    WithoutMembers(s.active, p);
  }

  /** `__active_timer_sigev_thread = kt->next` */
  lemma PopHead(s: State, t: nat, p: Ptr)
    requires Inv(s) && t < |s.threads| && s.threads[t] == DHead(p) && s.head == Some(p)
    ensures p in s.heap && Inv(At(s, t, DUnlock(p)).(head := s.heap[p].next, active := Without(s.active, p)))
  {
    hide Inv, Ownership, Table, List, Locals, HelperOk, Mutex, Chain, Distinct, Before, Without, Listed;
    Own(s, t, p);
    PopChain(s, p);
    MoveList(s, At(s, t, DUnlock(p)).(head := s.heap[p].next, active := Without(s.active, p)), t, p);
  }

  lemma UnlinkChain(s: State, p: Ptr, q: Ptr)
    requires Inv(s) && Before(s.active, q, p) && q in s.heap && p in s.heap && s.heap[q].next == Some(p)
    ensures Chain(s.head, s.heap[q := s.heap[q].(next := s.heap[p].next)], Without(s.active, p))
    ensures Distinct(Without(s.active, p))
    ensures forall x :: x in Without(s.active, p) <==> x in s.active && x != p
  {
    ChainUnlink(s.head, s.heap, s.active, q, p);
    WithoutMembers(s.active, p);
  }

  /** `prevp->next = kt->next` */
  lemma UnlinkNext(s: State, t: nat, p: Ptr, q: Ptr)
    requires Inv(s) && t < |s.threads| && s.threads[t] == DWalk(p, Some(q)) && q in s.heap && s.heap[q].next == Some(p)
    ensures p in s.heap
    ensures Inv(At(s, t, DUnlock(p)).(heap := s.heap[q := s.heap[q].(next := s.heap[p].next)],
                                      active := Without(s.active, p)))
  {
    hide Inv, Ownership, Table, List, Locals, HelperOk, Mutex, Chain, Distinct, Before, Without, Listed;
    Own(s, t, p);
    UnlinkChain(s, p, q);
    var heap := s.heap[q := s.heap[q].(next := s.heap[p].next)];
    MoveList(s, At(s, t, DUnlock(p)).(heap := heap, active := Without(s.active, p)), t, p);
  }

  lemma HelperMoves(s: State, s': State)
    requires Inv(s) && s' == s.(helper := s'.helper, lock := s'.lock) && HelperOk(s') && Mutex(s')
    ensures Inv(s')
  {
    hide Before, Chain, Distinct, PcOk, Locals, HelperOk, Mutex;
    SameLocals(s, s');
    assert forall q :: Listed(s, q) <==> Listed(s', q);
  }

  lemma HelperHears(s: State, tk: Ptr)
    requires Inv(s) && s.helper.HWait?
    ensures Inv(s.(helper := HLock(tk)))
  {
    HelperMoves(s, s.(helper := HLock(tk)));
  }

  /** The helper follows `next` only from blocks on the list and reads a timer's fields only while it is on the list. */
  lemma GoodHelper(s: State)
    requires Inv(s) && Enabled(s, HelperStep)
    ensures Good(Next(s, HelperStep))
  {
    hide Inv;
    ServeDoes(s);
    HelperMoves(s, Next(s, HelperStep).s);
  }

  lemma ServeDoes(s: State)
    requires Inv(s) && Enabled(s, HelperStep)
    ensures Serve(s).Ok?
    ensures var s' := Serve(s).s; s' == s.(helper := s'.helper, lock := s'.lock) && HelperOk(s') && Mutex(s')
  {
    hide Ownership, Table, Locals, Before, Chain, Distinct, Listed;
    if s.helper.HWalk? && s.helper.runp.Some? {
      ChainNext(s.head, s.heap, s.active, s.helper.runp.value);
    } else if s.helper.HLock? && s.head.Some? {
      ChainHead(s);
    }
  }

  lemma ChainHead(s: State)
    requires Inv(s) && s.head.Some?
    ensures s.head.value in s.active
  {
  }

  // The actions.

  /** A scan of the table for p stops at p's slot. */
  lemma ScanOn(s: State, p: Ptr, i: nat)
    requires Inv(s) && p in s.at && i <= s.at[p]
    ensures i < |s.slots| && (s.slots[i] == Some(p) <==> i == s.at[p])
  {
  }

  lemma HeadOther(s: State, p: Ptr)
    requires Inv(s) && p in s.active && s.head != Some(p)
    ensures s.head.Some? && Before(s.active, s.head.value, p)
  {
    HeadBefore(s.active, p);
  }

  lemma WalkOther(s: State, q: Ptr, p: Ptr)
    requires Inv(s) && Before(s.active, q, p)
    ensures q in s.heap && s.heap[q].next.Some?
    ensures s.heap[q].next == Some(p) || Before(s.active, s.heap[q].next.value, p)
  {
    WalkOn(s.head, s.heap, s.active, q, p);
  }

  lemma GoodCMalloc(s: State, t: nat, alloc: Option<Ptr>, ok: bool, th: bool)
    requires Inv(s) && Enabled(s, Step(t, alloc, ok)) && s.threads[t] == CMalloc(th)
    ensures Good(Next(s, Step(t, alloc, ok)))
  {
    hide Inv, Ownership, Table, List, Locals, HelperOk, Chain, Distinct, Before, Without, Listed;
    if alloc.None? { FrameIdle(s, t, Idle); } else { Allocate(s, t, alloc.value, th); }
  }

  lemma CScanDoes(s: State, t: nat, alloc: Option<Ptr>, ok: bool, th: bool, p: Ptr, i: nat)
    requires Enabled(s, Step(t, alloc, ok)) && s.threads[t] == CScan(th, p, i) && |s.slots| == TIMER_MAX
    ensures Next(s, Step(t, alloc, ok)) == Ok(if i >= TIMER_MAX then At(s, t, Idle).(owner := s.owner[p := Leaked])
               else if s.slots[i] == None then
                 At(s, t, if th then CFill(p) else CKernel(th, p)).(slots := s.slots[i := Some(p)], at := s.at[p := i])
               else At(s, t, CScan(th, p, i + 1)))
  {
  }

  lemma GoodCScan(s: State, t: nat, alloc: Option<Ptr>, ok: bool, th: bool, p: Ptr, i: nat)
    requires Inv(s) && Enabled(s, Step(t, alloc, ok)) && s.threads[t] == CScan(th, p, i)
    ensures Good(Next(s, Step(t, alloc, ok)))
  {
    hide Inv, Ownership, Table, List, Locals, HelperOk, Chain, Distinct, Before, Without, Listed, SlotOk, Mutex,
      Next, Create, Enlist, Delete, Free;
    Own(s, t, p);
    CScanDoes(s, t, alloc, ok, th, p, i);
    if i >= TIMER_MAX {
      Leak(s, t, p);
    } else if s.slots[i] == None {
      Claim(s, t, p, if th then CFill(p) else CKernel(th, p), i);
    } else {
      Stay(s, t, p, CScan(th, p, i + 1));
    }
  }

  lemma GoodCFill(s: State, t: nat, alloc: Option<Ptr>, ok: bool, p: Ptr)
    requires Inv(s) && Enabled(s, Step(t, alloc, ok)) && s.threads[t] == CFill(p)
    ensures Good(Next(s, Step(t, alloc, ok)))
  {
    hide Inv, Ownership, Table, List, Locals, HelperOk, Chain, Distinct, Before, Without, Listed;
    Own(s, t, p);
    Write(s, t, p, CKernel(true, p), s.heap[p].(params := true, notify := SigevThread));
  }

  lemma GoodCKernel(s: State, t: nat, alloc: Option<Ptr>, ok: bool, th: bool, p: Ptr)
    requires Inv(s) && Enabled(s, Step(t, alloc, ok)) && s.threads[t] == CKernel(th, p)
    ensures Good(Next(s, Step(t, alloc, ok)))
  {
    hide Inv, Ownership, Table, List, Locals, HelperOk, Chain, Distinct, Before, Without, Listed;
    Own(s, t, p);
    Stay(s, t, p, if !ok then FId(p, 0) else if th then CLock(p) else CNotify(p));
  }

  lemma GoodCNotify(s: State, t: nat, alloc: Option<Ptr>, ok: bool, p: Ptr)
    requires Inv(s) && Enabled(s, Step(t, alloc, ok)) && s.threads[t] == CNotify(p)
    ensures Good(Next(s, Step(t, alloc, ok)))
  {
    hide Inv, Ownership, Table, List, Locals, HelperOk, Chain, Distinct, Before, Without, Listed;
    Own(s, t, p);
    Write(s, t, p, CId(p, 0), s.heap[p].(notify := Other));
  }

  lemma GoodCLock(s: State, t: nat, alloc: Option<Ptr>, ok: bool, p: Ptr)
    requires Inv(s) && Enabled(s, Step(t, alloc, ok)) && s.threads[t] == CLock(p)
    ensures Good(Next(s, Step(t, alloc, ok)))
  {
    hide Inv, Ownership, Table, List, Locals, HelperOk, Chain, Distinct, Before, Without, Listed;
    Own(s, t, p);
    Lock(s, t, p, CNext(p));
  }

  lemma GoodCNext(s: State, t: nat, alloc: Option<Ptr>, ok: bool, p: Ptr)
    requires Inv(s) && Enabled(s, Step(t, alloc, ok)) && s.threads[t] == CNext(p)
    ensures Good(Next(s, Step(t, alloc, ok)))
  {
    hide Inv, Ownership, Table, List, Locals, HelperOk, Chain, Distinct, Before, Without, Listed;
    Own(s, t, p);
    Write(s, t, p, CHead(p), s.heap[p].(next := s.head));
  }

  lemma GoodCHead(s: State, t: nat, alloc: Option<Ptr>, ok: bool, p: Ptr)
    requires Inv(s) && Enabled(s, Step(t, alloc, ok)) && s.threads[t] == CHead(p)
    ensures Good(Next(s, Step(t, alloc, ok)))
  {
    hide Inv, Ownership, Table, List, Locals, HelperOk, Chain, Distinct, Before, Without, Listed;
    Own(s, t, p);
    Push(s, t, p);
  }

  lemma GoodCUnlock(s: State, t: nat, alloc: Option<Ptr>, ok: bool, p: Ptr)
    requires Inv(s) && Enabled(s, Step(t, alloc, ok)) && s.threads[t] == CUnlock(p)
    ensures Good(Next(s, Step(t, alloc, ok)))
  {
    hide Inv, Ownership, Table, List, Locals, HelperOk, Chain, Distinct, Before, Without, Listed;
    Own(s, t, p);
    Unlock(s, t, p, CId(p, 0));
  }

  lemma CIdDoes(s: State, t: nat, alloc: Option<Ptr>, ok: bool, p: Ptr, i: nat)
    requires Enabled(s, Step(t, alloc, ok)) && s.threads[t] == CId(p, i) && |s.slots| == TIMER_MAX && i < TIMER_MAX
    ensures Next(s, Step(t, alloc, ok)) == Ok(
      if s.slots[i] == Some(p) then At(s, t, Idle).(issued := s.issued[i := p], owner := s.owner[p := Client(i)])
      else At(s, t, CId(p, i + 1)))
  {
  }

  /** `__kfreebsd_timer_ptr2id` finds the timer before the end of the table. */
  lemma GoodCId(s: State, t: nat, alloc: Option<Ptr>, ok: bool, p: Ptr, i: nat)
    requires Inv(s) && Enabled(s, Step(t, alloc, ok)) && s.threads[t] == CId(p, i)
    ensures Good(Next(s, Step(t, alloc, ok)))
  {
    hide Inv, Ownership, Table, List, Locals, HelperOk, Chain, Distinct, Before, Without, Listed, SlotOk, Mutex,
      Next, Create, Enlist, Delete, Free;
    Own(s, t, p);
    ScanOn(s, p, i);
    CIdDoes(s, t, alloc, ok, p, i);
    if s.slots[i] == Some(p) { Issue(s, t, p, i); } else { Stay(s, t, p, CId(p, i + 1)); }
  }

  /** `__kfreebsd_timer_id2ptr` finds the timer the id was issued for. */
  lemma GoodDLookup(s: State, t: nat, alloc: Option<Ptr>, ok: bool, id: nat, p: Ptr)
    requires Inv(s) && Enabled(s, Step(t, alloc, ok)) && s.threads[t] == DLookup(id, p)
    ensures Good(Next(s, Step(t, alloc, ok)))
  {
    hide Inv, Ownership, Table, List, Locals, HelperOk, Chain, Distinct, Before, Without, Listed;
    Own(s, t, p);
    Stay(s, t, p, DKernel(id, p));
  }

  lemma GoodDKernel(s: State, t: nat, alloc: Option<Ptr>, ok: bool, id: nat, p: Ptr)
    requires Inv(s) && Enabled(s, Step(t, alloc, ok)) && s.threads[t] == DKernel(id, p)
    ensures Good(Next(s, Step(t, alloc, ok)))
  {
    hide Inv, Ownership, Table, List, Locals, HelperOk, Chain, Distinct, Before, Without, Listed;
    Own(s, t, p);
    if ok { Stay(s, t, p, DNotify(p)); } else { Issue(s, t, p, id); }
  }

  lemma GoodDNotify(s: State, t: nat, alloc: Option<Ptr>, ok: bool, p: Ptr)
    requires Inv(s) && Enabled(s, Step(t, alloc, ok)) && s.threads[t] == DNotify(p)
    ensures Good(Next(s, Step(t, alloc, ok)))
  {
    hide Inv, Ownership, Table, List, Locals, HelperOk, Chain, Distinct, Before, Without, Listed;
    Own(s, t, p);
    Stay(s, t, p, if s.heap[p].notify == SigevThread then DLock(p) else FId(p, 0));
  }

  lemma GoodDLock(s: State, t: nat, alloc: Option<Ptr>, ok: bool, p: Ptr)
    requires Inv(s) && Enabled(s, Step(t, alloc, ok)) && s.threads[t] == DLock(p)
    ensures Good(Next(s, Step(t, alloc, ok)))
  {
    hide Inv, Ownership, Table, List, Locals, HelperOk, Chain, Distinct, Before, Without, Listed;
    Own(s, t, p);
    Lock(s, t, p, DHead(p));
  }

  /** The list is not empty when delete looks at it: its timer is there. */
  lemma GoodDHead(s: State, t: nat, alloc: Option<Ptr>, ok: bool, p: Ptr)
    requires Inv(s) && Enabled(s, Step(t, alloc, ok)) && s.threads[t] == DHead(p)
    ensures Good(Next(s, Step(t, alloc, ok)))
  {
    hide Inv, Ownership, Table, List, Locals, HelperOk, Chain, Distinct, Before, Without, Listed;
    Own(s, t, p);
    if s.head == Some(p) {
      PopHead(s, t, p);
    } else {
      HeadOther(s, p);
      Stay(s, t, p, DWalk(p, s.head));
    }
  }

  lemma DWalkDoes(s: State, t: nat, alloc: Option<Ptr>, ok: bool, p: Ptr, q: Ptr)
    requires Enabled(s, Step(t, alloc, ok)) && s.threads[t] == DWalk(p, Some(q)) && p in s.heap && q in s.heap &&
      s.heap[q].next.Some?
    ensures Next(s, Step(t, alloc, ok)) ==
      Ok(if s.heap[q].next == Some(p) then
           At(s, t, DUnlock(p)).(heap := s.heap[q := s.heap[q].(next := s.heap[p].next)],
                                 active := Without(s.active, p))
         else At(s, t, DWalk(p, s.heap[q].next)))
  {
  }

  /** The walk never runs off the end of the list. */
  lemma GoodDWalk(s: State, t: nat, alloc: Option<Ptr>, ok: bool, p: Ptr, prevp: Option<Ptr>)
    requires Inv(s) && Enabled(s, Step(t, alloc, ok)) && s.threads[t] == DWalk(p, prevp)
    ensures Good(Next(s, Step(t, alloc, ok)))
  {
    hide Inv, Ownership, Table, List, Locals, HelperOk, Chain, Distinct, Before, Without, Listed, SlotOk, Mutex,
      Next, Create, Enlist, Delete, Free;
    Own(s, t, p);
    var q := prevp.value;
    WalkOther(s, q, p);
    DWalkDoes(s, t, alloc, ok, p, q);
    if s.heap[q].next == Some(p) {
      UnlinkNext(s, t, p, q);
    } else {
      Stay(s, t, p, DWalk(p, s.heap[q].next));
    }
  }

  lemma GoodDUnlock(s: State, t: nat, alloc: Option<Ptr>, ok: bool, p: Ptr)
    requires Inv(s) && Enabled(s, Step(t, alloc, ok)) && s.threads[t] == DUnlock(p)
    ensures Good(Next(s, Step(t, alloc, ok)))
  {
    hide Inv, Ownership, Table, List, Locals, HelperOk, Chain, Distinct, Before, Without, Listed;
    Own(s, t, p);
    Unlock(s, t, p, FId(p, 0));
  }

  lemma FIdDoes(s: State, t: nat, alloc: Option<Ptr>, ok: bool, p: Ptr, i: nat)
    requires Enabled(s, Step(t, alloc, ok)) && s.threads[t] == FId(p, i) && |s.slots| == TIMER_MAX && i < TIMER_MAX
    ensures Next(s, Step(t, alloc, ok)) == Ok(At(s, t, if s.slots[i] == Some(p) then FClear(p, i) else FId(p, i + 1)))
  {
  }

  lemma GoodFId(s: State, t: nat, alloc: Option<Ptr>, ok: bool, p: Ptr, i: nat)
    requires Inv(s) && Enabled(s, Step(t, alloc, ok)) && s.threads[t] == FId(p, i)
    ensures Good(Next(s, Step(t, alloc, ok)))
  {
    hide Inv, Ownership, Table, List, Locals, HelperOk, Chain, Distinct, Before, Without, Listed, SlotOk, Mutex,
      Next, Create, Enlist, Delete, Free;
    Own(s, t, p);
    ScanOn(s, p, i);
    FIdDoes(s, t, alloc, ok, p, i);
    Stay(s, t, p, if s.slots[i] == Some(p) then FClear(p, i) else FId(p, i + 1));
  }

  lemma GoodFClear(s: State, t: nat, alloc: Option<Ptr>, ok: bool, p: Ptr, i: nat)
    requires Inv(s) && Enabled(s, Step(t, alloc, ok)) && s.threads[t] == FClear(p, i)
    ensures Good(Next(s, Step(t, alloc, ok)))
  {
    hide Inv, Ownership, Table, List, Locals, HelperOk, Chain, Distinct, Before, Without, Listed;
    Own(s, t, p);
    Unclaim(s, t, p);
  }

  lemma GoodFFree(s: State, t: nat, alloc: Option<Ptr>, ok: bool, p: Ptr)
    requires Inv(s) && Enabled(s, Step(t, alloc, ok)) && s.threads[t] == FFree(p)
    ensures Good(Next(s, Step(t, alloc, ok)))
  {
    hide Inv, Ownership, Table, List, Locals, HelperOk, Chain, Distinct, Before, Without, Listed;
    Own(s, t, p);
    Release(s, t, p);
  }

  lemma GoodStep(s: State, t: nat, alloc: Option<Ptr>, ok: bool)
    requires Inv(s) && Enabled(s, Step(t, alloc, ok))
    ensures Good(Next(s, Step(t, alloc, ok)))
  {
    hide Inv, Good, Next;
    match s.threads[t]
    case CMalloc(th) => GoodCMalloc(s, t, alloc, ok, th);
    case CScan(th, p, i) => GoodCScan(s, t, alloc, ok, th, p, i);
    case CFill(p) => GoodCFill(s, t, alloc, ok, p);
    case CKernel(th, p) => GoodCKernel(s, t, alloc, ok, th, p);
    case CNotify(p) => GoodCNotify(s, t, alloc, ok, p);
    case CLock(p) => GoodCLock(s, t, alloc, ok, p);
    case CNext(p) => GoodCNext(s, t, alloc, ok, p);
    case CHead(p) => GoodCHead(s, t, alloc, ok, p);
    case CUnlock(p) => GoodCUnlock(s, t, alloc, ok, p);
    case CId(p, i) => GoodCId(s, t, alloc, ok, p, i);
    case DLookup(id, p) => GoodDLookup(s, t, alloc, ok, id, p);
    case DKernel(id, p) => GoodDKernel(s, t, alloc, ok, id, p);
    case DNotify(p) => GoodDNotify(s, t, alloc, ok, p);
    case DLock(p) => GoodDLock(s, t, alloc, ok, p);
    case DHead(p) => GoodDHead(s, t, alloc, ok, p);
    case DWalk(p, prevp) => GoodDWalk(s, t, alloc, ok, p, prevp);
    case DUnlock(p) => GoodDUnlock(s, t, alloc, ok, p);
    case FId(p, i) => GoodFId(s, t, alloc, ok, p, i);
    case FClear(p, i) => GoodFClear(s, t, alloc, ok, p, i);
    case FFree(p) => GoodFFree(s, t, alloc, ok, p);
  }

  /** No action faults, and the invariant is kept. */
  lemma GoodAction(s: State, a: Action)
    requires Inv(s) && Enabled(s, a)
    ensures Good(Next(s, a))
  {
    hide Inv;
    match a
    case StartCreate(t, th) => FrameIdle(s, t, CMalloc(th));
    case StartDelete(t, id) => TakeBack(s, t, id);
    case Signal(tk) => HelperHears(s, tk);
    case HelperStep => GoodHelper(s);
    case Step(t, alloc, ok) => GoodStep(s, t, alloc, ok);
  }
}
