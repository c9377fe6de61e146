/**
  The registry of POSIX timers as a transition system: user threads that create and delete timers and the helper
  thread that serves SIGEV_THREAD notifications, one access to shared memory per action.

  A timer is a heap block named by its address; addresses of freed blocks may be handed out again.  An action that
  touches a block that is not allocated, reads a field nobody has written, follows a null pointer, finds no timer for
  an id or no slot for a timer is a `Fault`.
*/
module Timers {
  import opened Memory

  const TIMER_MAX: nat := 256

  type Ptr = nat

  datatype Notify = Unset | SigevThread | Other

  /** struct timer: `params` tells whether thrfunc, sival and attr have been written. */
  datatype Rec = Rec(notify: Notify, params: bool, next: Option<Ptr>)

  const GARBAGE := Rec(Unset, false, None)

  datatype Pc =
    | Idle
    // timer_create; `th` is SIGEV_THREAD
    | CMalloc(th: bool)
    | CScan(th: bool, p: Ptr, i: nat)       // __kfreebsd_timer_alloc: CAS on slot i
    | CFill(p: Ptr)                         // the thread parameters
    | CKernel(th: bool, p: Ptr)             // ktimer_create
    | CNotify(p: Ptr)                       // sigev_notify of a timer without thread
    | CLock(p: Ptr)
    | CNext(p: Ptr)                         // newp->next = head
    | CHead(p: Ptr)                         // head = newp
    | CUnlock(p: Ptr)
    | CId(p: Ptr, i: nat)                   // __kfreebsd_timer_ptr2id
    // timer_delete; `p` of DLookup is what the id stands for
    | DLookup(id: nat, p: Ptr)              // __kfreebsd_timer_id2ptr
    | DKernel(id: nat, p: Ptr)              // ktimer_delete
    | DNotify(p: Ptr)
    | DLock(p: Ptr)
    | DHead(p: Ptr)
    | DWalk(p: Ptr, prevp: Option<Ptr>)
    | DUnlock(p: Ptr)
    // __kfreebsd_timer_free
    | FId(p: Ptr, i: nat)
    | FClear(p: Ptr, i: nat)
    | FFree(p: Ptr)
  {
    /** The timer this thread works on and nobody else may release. */
    function Mine(): Option<Ptr> {
      if Idle? || CMalloc? then None else Some(p)
    }

    /** Getting a block, a slot and a kernel timer; telling the helper and the caller; giving the block back. */
    predicate Creating() { CMalloc? || CScan? || CFill? || CKernel? || CNotify? }
    predicate Enlisting() { CLock? || CNext? || CHead? || CUnlock? || CId? }
    predicate Freeing() { FId? || FClear? || FFree? }

    /** Inside the section protected by __active_timer_sigev_thread_lock. */
    predicate Locked() { CNext? || CHead? || CUnlock? || DHead? || DWalk? || DUnlock? }
  }

  datatype Helper =
    | HWait
    | HLock(tk: Ptr)
    | HWalk(tk: Ptr, runp: Option<Ptr>)
    | HRead(tk: Ptr)
    | HUnlock
  {
    predicate Locked() { HWalk? || HRead? || HUnlock? }
  }

  datatype Holder = Nobody | User(t: nat) | TheHelper

  /** Who may release a block: a thread at work on it, the program that got its id, or nobody any more. */
  datatype Owner = Thread(t: nat) | Client(id: nat) | Leaked

  datatype State = State(
    heap: map<Ptr, Rec>,
    slots: seq<Option<Ptr>>,      // __all_timers
    head: Option<Ptr>,            // __active_timer_sigev_thread
    lock: Holder,
    threads: seq<Pc>,
    helper: Helper,
    // Auxiliary: determined by the history, never consulted by an action of the code.
    owner: map<Ptr, Owner>,
    at: map<Ptr, nat>,            // the slot of a timer
    issued: map<nat, Ptr>,        // ids that create has returned and nobody has begun to delete
    active: seq<Ptr>)             // the list behind `head`

  datatype Action =
    | StartCreate(t: nat, th: bool)
    | StartDelete(t: nat, id: nat)
    | Step(t: nat, alloc: Option<Ptr>, ok: bool)   // `alloc` answers malloc, `ok` the kernel
    | Signal(tk: Ptr)                              // SIGTIMER with any value, however stale
    | HelperStep

  datatype Outcome = Ok(s: State) | Fault

  /** The program deletes an id only after create returned it, and only once. */
  predicate Enabled(s: State, a: Action) {
    match a
    case StartCreate(t, _) => t < |s.threads| && s.threads[t].Idle?
    case StartDelete(t, id) => t < |s.threads| && s.threads[t].Idle? && id in s.issued
    case Step(t, alloc, _) =>
      && t < |s.threads| && !s.threads[t].Idle?
      && (s.threads[t].CMalloc? && alloc.Some? ==> alloc.value !in s.heap)
      && (s.threads[t].CLock? || s.threads[t].DLock? ==> s.lock.Nobody?)
    case Signal(_) => s.helper.HWait?
    case HelperStep => !s.helper.HWait? && (s.helper.HLock? ==> s.lock.Nobody?)
  }

  function At(s: State, t: nat, pc: Pc): State
    requires t < |s.threads|
  {
    s.(threads := s.threads[t := pc])
  }

  function Slot(s: State, i: nat): Option<Ptr> {
    if i < |s.slots| then s.slots[i] else None
  }

  /** `active` without p; what comes before and after it keeps its order. */
  function Without<T(==)>(active: seq<T>, p: T): seq<T> {
    if active == [] then [] else if active[0] == p then active[1..] else [active[0]] + Without(active[1..], p)
  }

  /** The first place of x in `slots`, or the length if there is none. */
  function First<T(==)>(slots: seq<T>, x: T): nat {
    if slots == [] || slots[0] == x then 0 else 1 + First(slots[1..], x)
  }

  function Create(s: State, t: nat, alloc: Option<Ptr>, ok: bool): Outcome
    requires t < |s.threads|
  {
    match s.threads[t]
    case CMalloc(th) =>
      if alloc.None? then Ok(At(s, t, Idle))
      else
        Ok(At(s, t, CScan(th, alloc.value, 0)).(heap := s.heap[alloc.value := GARBAGE],
                                                owner := s.owner[alloc.value := Thread(t)]))
    case CScan(th, p, i) =>
      if i >= TIMER_MAX then Ok(At(s, t, Idle).(owner := s.owner[p := Leaked]))
      else if i >= |s.slots| then Fault
      else if s.slots[i] == None then
        Ok(At(s, t, if th then CFill(p) else CKernel(th, p)).(slots := s.slots[i := Some(p)], at := s.at[p := i]))
      else Ok(At(s, t, CScan(th, p, i + 1)))
    case CFill(p) =>
      if p !in s.heap then Fault
      else Ok(At(s, t, CKernel(true, p)).(heap := s.heap[p := s.heap[p].(params := true, notify := SigevThread)]))
    case CKernel(th, p) =>
      if p !in s.heap then Fault
      else if !ok then Ok(At(s, t, FId(p, 0)))
      else Ok(At(s, t, if th then CLock(p) else CNotify(p)))
    case CNotify(p) =>
      if p !in s.heap then Fault
      else Ok(At(s, t, CId(p, 0)).(heap := s.heap[p := s.heap[p].(notify := Other)]))
    case _ => Ok(s)
  }

  function Enlist(s: State, t: nat): Outcome
    requires t < |s.threads|
  {
    match s.threads[t]
    case CLock(p) => Ok(At(s, t, CNext(p)).(lock := User(t)))
    case CNext(p) =>
      if p !in s.heap then Fault
      else Ok(At(s, t, CHead(p)).(heap := s.heap[p := s.heap[p].(next := s.head)]))
    case CHead(p) => Ok(At(s, t, CUnlock(p)).(head := Some(p), active := [p] + s.active))
    case CUnlock(p) => Ok(At(s, t, CId(p, 0)).(lock := Nobody))
    case CId(p, i) =>
      if i >= TIMER_MAX || i >= |s.slots| then Fault
      else if s.slots[i] == Some(p) then
        Ok(At(s, t, Idle).(issued := s.issued[i := p], owner := s.owner[p := Client(i)]))
      else Ok(At(s, t, CId(p, i + 1)))
    case _ => Ok(s)
  }

  function Delete(s: State, t: nat, ok: bool): Outcome
    requires t < |s.threads|
  {
    match s.threads[t]
    case DLookup(id, p) =>
      if Slot(s, id) == None then Fault else Ok(At(s, t, DKernel(id, Slot(s, id).value)))
    case DKernel(id, p) =>
      if p !in s.heap then Fault
      else if ok then Ok(At(s, t, DNotify(p)))
      else Ok(At(s, t, Idle).(issued := s.issued[id := p], owner := s.owner[p := Client(id)]))
    case DNotify(p) =>
      if p !in s.heap || s.heap[p].notify == Unset then Fault
      else Ok(At(s, t, if s.heap[p].notify == SigevThread then DLock(p) else FId(p, 0)))
    case DLock(p) => Ok(At(s, t, DHead(p)).(lock := User(t)))
    case DHead(p) =>
      if s.head == Some(p) then
        if p !in s.heap then Fault
        else Ok(At(s, t, DUnlock(p)).(head := s.heap[p].next, active := Without(s.active, p)))
      else Ok(At(s, t, DWalk(p, s.head)))
    case DWalk(p, prevp) =>
      if prevp == None || prevp.value !in s.heap then Fault
      else if s.heap[prevp.value].next == None then Ok(At(s, t, DUnlock(p)))
      else if s.heap[prevp.value].next == Some(p) then
        if p !in s.heap then Fault
        else Ok(At(s, t, DUnlock(p)).(heap := s.heap[prevp.value := s.heap[prevp.value].(next := s.heap[p].next)],
                                       active := Without(s.active, p)))
      else Ok(At(s, t, DWalk(p, s.heap[prevp.value].next)))
    case DUnlock(p) => Ok(At(s, t, FId(p, 0)).(lock := Nobody))
    case _ => Ok(s)
  }

  /** __kfreebsd_timer_free */
  function Free(s: State, t: nat): Outcome
    requires t < |s.threads|
  {
    match s.threads[t]
    case FId(p, i) =>
      if i >= TIMER_MAX || i >= |s.slots| then Fault
      else if s.slots[i] == Some(p) then Ok(At(s, t, FClear(p, i)))
      else Ok(At(s, t, FId(p, i + 1)))
    case FClear(p, i) =>
      if i >= |s.slots| then Fault
      else Ok(At(s, t, FFree(p)).(slots := s.slots[i := None], at := s.at - {p}))
    case FFree(p) =>
      if p !in s.heap then Fault
      else Ok(At(s, t, Idle).(heap := s.heap - {p}, owner := s.owner - {p}))
    case _ => Ok(s)
  }

  /** The loop of timer_helper_thread after sigtimedwait. */
  function Serve(s: State): Outcome
  {
    match s.helper
    case HLock(tk) => Ok(s.(helper := HWalk(tk, s.head), lock := TheHelper))
    case HWalk(tk, runp) =>
      if runp == None then Ok(s.(helper := HUnlock))
      else if runp == Some(tk) then Ok(s.(helper := HRead(tk)))
      else if runp.value !in s.heap then Fault
      else Ok(s.(helper := HWalk(tk, s.heap[runp.value].next)))
    case HRead(tk) => if tk !in s.heap || !s.heap[tk].params then Fault else Ok(s.(helper := HUnlock))
    case HUnlock => Ok(s.(helper := HWait, lock := Nobody))
    case HWait => Ok(s)
  }

  function Next(s: State, a: Action): Outcome
    requires Enabled(s, a)
  {
    match a
    case StartCreate(t, th) => Ok(At(s, t, CMalloc(th)))
    case StartDelete(t, id) =>
      Ok(At(s, t, DLookup(id, s.issued[id])).(issued := s.issued - {id}, owner := s.owner[s.issued[id] := Thread(t)]))
    case Step(t, alloc, ok) =>
      var pc := s.threads[t];
      if pc.Creating() then Create(s, t, alloc, ok)
      else if pc.Enlisting() then Enlist(s, t)
      else if pc.Freeing() then Free(s, t)
      else Delete(s, t, ok)
    case Signal(tk) => Ok(s.(helper := HLock(tk)))
    case HelperStep => Serve(s)
  }

  predicate Init(s: State) {
    && s.heap == map[] && s.owner == map[] && s.at == map[] && s.issued == map[]
    && |s.slots| == TIMER_MAX && (forall i :: 0 <= i < TIMER_MAX ==> s.slots[i] == None)
    && s.head == None && s.active == [] && s.lock == Nobody && s.helper == HWait
    && forall t :: 0 <= t < |s.threads| ==> s.threads[t].Idle?
  }

  /** A run: every action so far went without a fault. */
  predicate IsRun(path: seq<State>, acts: seq<Action>) {
    && |path| == |acts| + 1
    && forall k :: 0 <= k < |acts| ==> Enabled(path[k], acts[k]) && Next(path[k], acts[k]) == Ok(path[k + 1])
  }
}
