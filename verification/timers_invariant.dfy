/** What holds in every reachable state of the timer registry. */
module TimersInvariant {
  import opened Memory
  import opened Timers

  /** From `head`, following `next`, one meets exactly `active`. */
  predicate Chain(head: Option<Ptr>, heap: map<Ptr, Rec>, active: seq<Ptr>)
    decreases |active|
  {
    if active == [] then head == None
    else head == Some(active[0]) && active[0] in heap && Chain(heap[active[0]].next, heap, active[1..])
  }

  predicate Distinct(active: seq<Ptr>) { active == [] || (active[0] !in active[1..] && Distinct(active[1..])) }

  /** q comes before p. */
  predicate Before(active: seq<Ptr>, q: Ptr, p: Ptr) {
    active != [] && if active[0] == q then p in active[1..] else Before(active[1..], q, p)
  }

  /** The timers that should be on the list: created with SIGEV_THREAD, pushed, not yet unlinked. */
  predicate ListedBy(pc: Pc, notify: Notify) {
    || pc.CUnlock? || pc.DLock? || pc.DHead? || pc.DWalk?
    || ((pc.CId? || pc.DLookup? || pc.DKernel? || pc.DNotify?) && notify == SigevThread)
  }

  predicate Listed(s: State, p: Ptr) {
    && p in s.owner && p in s.heap
    && match s.owner[p]
       case Client(_) => s.heap[p].notify == SigevThread
       case Thread(t) => t < |s.threads| && ListedBy(s.threads[t], s.heap[p].notify)
       case Leaked => false
  }

  /** A block belongs to its owner, and only to it. */
  predicate Ownership(s: State) {
    && s.heap.Keys == s.owner.Keys
    && (forall p :: p in s.owner ==>
          match s.owner[p]
          case Thread(t) => t < |s.threads| && s.threads[t].Mine() == Some(p)
          case Client(id) => id in s.issued && s.issued[id] == p
          case Leaked => p !in s.at)
    && (forall t :: 0 <= t < |s.threads| && s.threads[t].Mine().Some? ==>
          s.threads[t].Mine().value in s.owner && s.owner[s.threads[t].Mine().value] == Thread(t))
    && (forall id :: id in s.issued ==>
          var p := s.issued[id];
          p in s.owner && s.owner[p] == Client(id) && p in s.at && s.at[p] == id && s.heap[p].notify != Unset)
  }

  /** The table holds each timer in one slot. */
  predicate Table(s: State) {
    && |s.slots| == TIMER_MAX
    && (forall i :: 0 <= i < |s.slots| && s.slots[i].Some? ==> s.slots[i].value in s.at && s.at[s.slots[i].value] == i)
    && (forall p :: p in s.at ==> p in s.owner && s.at[p] < |s.slots| && s.slots[s.at[p]] == Some(p))
  }

  ghost predicate List(s: State) {
    && Chain(s.head, s.heap, s.active)
    && Distinct(s.active)
    && (forall p :: p in s.active <==> Listed(s, p))
    && (forall p :: p in s.active ==> p in s.heap && s.heap[p].params && s.heap[p].notify == SigevThread)
  }

  predicate Mutex(s: State) {
    && (forall t :: 0 <= t < |s.threads| ==> (s.threads[t].Locked() <==> s.lock == User(t)))
    && (s.helper.Locked() <==> s.lock == TheHelper)
  }

  /** What a thread at `pc` knows about its timer. */
  predicate PcOk(s: State, pc: Pc) {
    pc.Mine().Some? && pc.Mine().value in s.heap ==>
      var r := s.heap[pc.Mine().value];
      match pc
      case CScan(_, p, _) => p !in s.at
      case CFill(p) => p in s.at
      case CKernel(th, p) => p in s.at && (th ==> r.params && r.notify == SigevThread)
      case CNotify(p) => p in s.at
      case CLock(p) => p in s.at && r.params && r.notify == SigevThread
      case CNext(p) => p in s.at && r.params && r.notify == SigevThread
      case CHead(p) => p in s.at && r.params && r.notify == SigevThread && r.next == s.head
      case CUnlock(p) => p in s.at && r.notify == SigevThread
      case CId(p, i) => p in s.at && i <= s.at[p] && r.notify != Unset
      case DLookup(id, p) => p in s.at && s.at[p] == id && r.notify != Unset
      case DKernel(id, p) => p in s.at && s.at[p] == id && r.notify != Unset
      case DNotify(p) => p in s.at && r.notify != Unset
      case DLock(p) => p in s.at
      case DHead(p) => p in s.at
      case DWalk(p, prevp) => p in s.at && prevp.Some? && Before(s.active, prevp.value, p)
      case DUnlock(p) => p in s.at
      case FId(p, i) => p in s.at && i <= s.at[p]
      case FClear(p, i) => p in s.at && s.at[p] == i
      case FFree(p) => p !in s.at
  }

  predicate Locals(s: State) { forall t :: 0 <= t < |s.threads| ==> PcOk(s, s.threads[t]) }

  predicate HelperOk(s: State) {
    match s.helper
    case HWalk(_, runp) => runp.Some? ==> runp.value in s.active
    case HRead(tk) => tk in s.active
    case _ => true
  }

  ghost predicate Inv(s: State) {
    Ownership(s) && Table(s) && List(s) && Mutex(s) && Locals(s) && HelperOk(s)
  }

  lemma InitInv(s: State)
    requires Init(s)
    ensures Inv(s)
  {
  }

  // The list.

  /** Writing blocks that are not on the list leaves the list. */
  lemma {:induction false} ChainFrame(head: Option<Ptr>, heap: map<Ptr, Rec>, heap': map<Ptr, Rec>, active: seq<Ptr>)
    requires Chain(head, heap, active)
    requires forall p :: p in active && p in heap ==> p in heap' && heap'[p].next == heap[p].next
    ensures Chain(head, heap', active)
    decreases |active|
  {
    if active != [] {
      ChainFrame(heap[active[0]].next, heap, heap', active[1..]);
    }
  }

  lemma {:induction false} WithoutMembers(active: seq<Ptr>, p: Ptr)
    requires Distinct(active)
    ensures Distinct(Without(active, p))
    ensures forall q :: q in Without(active, p) <==> q in active && q != p
  {
    if active != [] && active[0] != p {
      WithoutMembers(active[1..], p);
    }
  }

  /** One step of the walk in timer_delete: it reaches p, or a later element still before p. */
  lemma {:induction false} WalkOn(head: Option<Ptr>, heap: map<Ptr, Rec>, active: seq<Ptr>, q: Ptr, p: Ptr)
    requires Chain(head, heap, active) && Distinct(active) && Before(active, q, p)
    ensures q in active && q in heap && heap[q].next.Some?
    ensures heap[q].next == Some(p) || Before(active, heap[q].next.value, p)
    decreases |active|
  {
    if active[0] == q {
      assert active[1..] != [];
    } else {
      WalkOn(heap[active[0]].next, heap, active[1..], q, p);
      if heap[q].next != Some(p) { InBefore(active[1..], heap[q].next.value, p); }
    }
  }

  lemma {:induction false} InBefore(active: seq<Ptr>, q: Ptr, p: Ptr)
    requires Distinct(active) && Before(active, q, p)
    ensures q != p && q in active && p in active
    decreases |active|
  {
    if active[0] != q {
      InBefore(active[1..], q, p);
    }
  }

  /** `prevp->next = kt->next` takes exactly p out. */
  lemma {:induction false} ChainUnlink(head: Option<Ptr>, heap: map<Ptr, Rec>, active: seq<Ptr>, q: Ptr, p: Ptr)
    requires Chain(head, heap, active) && Distinct(active) && Before(active, q, p)
    requires q in heap && p in heap && heap[q].next == Some(p)
    ensures Chain(head, heap[q := heap[q].(next := heap[p].next)], Without(active, p))
    decreases |active|
  {
    var heap' := heap[q := heap[q].(next := heap[p].next)];
    if active[0] == q {
      assert active[1] == p;
      assert Without(active, p) == [q] + active[2..];
      assert active[1..][1..] == active[2..];
      assert Distinct(active[1..]) && q !in active[1..];
      ChainFrame(heap[p].next, heap, heap', active[2..]);
    } else {
      InBefore(active[1..], q, p);
      assert active[0] != q && active[0] != p;
      ChainUnlink(heap[active[0]].next, heap, active[1..], q, p);
    }
  }

  lemma HeadBefore(active: seq<Ptr>, p: Ptr)
    requires p in active && active[0] != p
    ensures Before(active, active[0], p)
  {
  }

  lemma ChainNext(head: Option<Ptr>, heap: map<Ptr, Rec>, active: seq<Ptr>, q: Ptr)
    requires Chain(head, heap, active) && q in active
    ensures q in heap && (heap[q].next.Some? ==> heap[q].next.value in active)
    decreases |active|
  {
    if active[0] != q {
      ChainNext(heap[active[0]].next, heap, active[1..], q);
    } else if active[1..] != [] {
      assert heap[q].next == Some(active[1..][0]);
    }
  }
}
