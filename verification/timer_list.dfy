/**
  The timer registry in place, as one thread sees it while nobody else is active: the table __all_timers and the
  linked list behind __active_timer_sigev_thread.
*/
module TimerList {
  import opened Memory
  import opened Timers
  import opened TimersTheorems

  /** struct timer as malloc returns it: every field holds whatever was there. */
  class Timer {
    const addr: Ptr         // where it is
    var notify: Notify
    var ktimerid: int
    var params: bool        // thrfunc, sival and attr have been written
    var next: Timer?

    constructor (addr: Ptr)
      ensures this.addr == addr
    {
      this.addr := addr;
    }
  }

  lemma {:induction false} WithoutNone<T>(active: seq<T>, p: T)
    requires p !in active
    ensures Without(active, p) == active
  {
    if active != [] { WithoutNone(active[1..], p); }
  }

  class Registry {
    const slots: array<Timer?>
    var head: Timer?
    ghost var active: seq<Timer>
    ghost var blocks: set<Timer>     // what malloc has given and free has not taken back

    constructor ()
      ensures Valid() && fresh(slots) && active == [] && blocks == {}
      ensures forall i :: 0 <= i < TIMER_MAX ==> slots[i] == null
    {
      slots := new Timer?[TIMER_MAX](_ => null);
      head := null;
      active := [];
      blocks := {};
    }

    ghost predicate TableOk()
      reads slots
    {
      && slots.Length == TIMER_MAX
      && forall i, j :: 0 <= i < j < slots.Length && slots[i] != null ==> slots[i] != slots[j]
    }

    /** The i-th timer, null behind the last. */
    static ghost function Nth(list: seq<Timer>, i: nat): Timer? {
      if i < |list| then list[i] else null
    }

    /** A timer has been put into the slot f, which was free; the other slots are as they were. */
    ghost predicate IsAt(f: int, was: seq<Timer?>)
      reads slots
    {
      && 0 <= f < slots.Length == |was| && slots[f] != null && was[f] == null
      && (forall i :: 0 <= i < slots.Length && i != f ==> slots[i] == was[i])
    }

    /** From `head`, following `next`, one meets exactly `list`. */
    ghost predicate Linked(list: seq<Timer>)
      reads this`head, list
    {
      && head == Nth(list, 0)
      && (forall i :: 0 <= i < |list| ==> list[i].next == Nth(list, i + 1))
    }

    static ghost predicate Once(list: seq<Timer>) {
      forall i, j :: 0 <= i < j < |list| ==> list[i] != list[j]
    }

    /** Each timer may be served by the helper. */
    static ghost predicate Served(list: seq<Timer>)
      reads list`notify, list`params
    {
      forall t :: t in list ==> t.notify == SigevThread && t.params
    }

    ghost predicate ListOk()
      reads this`head, this`active, active
    {
      Linked(active) && Once(active) && Served(active)
    }

    /** The list holds exactly the SIGEV_THREAD timers of the table other than `but`. */
    ghost predicate Matched(but: Timer?)
      reads this`active, slots, slots[..]
    {
      && (forall t :: t in active ==> t in slots[..] && t != but)
      && (forall i | 0 <= i < slots.Length && slots[i] != null && slots[i] != but ::
            slots[i].notify == SigevThread ==> slots[i] in active)
    }

    /** Every timer of the table is a block that malloc has given and that has not been freed. */
    ghost predicate Owned()
      reads this`blocks, slots
    {
      forall t: Timer :: t in slots[..] ==> t in blocks
    }

    ghost predicate Valid()
      reads this, slots, slots[..], active
    {
      TableOk() && ListOk() && Matched(null) && Owned()
    }

    /** __kfreebsd_timer_alloc; `memory` tells whether malloc succeeds, and `block` is what it gives. */
    method Alloc(memory: bool) returns (timer: Timer?, ghost block: Timer?)
      requires TableOk()
      modifies slots, this`blocks
      ensures TableOk()
      ensures block == null <==> !memory
      ensures blocks == if block == null then old(blocks) else old(blocks) + {block}
      ensures block != null ==> fresh(block) && (timer == null || timer == block)
      ensures timer == null <==> !memory || null !in old(slots[..])
      ensures timer == null ==> slots[..] == old(slots[..])
      ensures timer != null ==> fresh(timer) && IsAt(First(old(slots[..]), null), old(slots[..]))
      ensures timer != null ==> slots[First(old(slots[..]), null)] == timer
    {
      timer, block := null, null;
      if memory {
        var addr: Ptr := *;
        timer := new Timer(addr);
        block := timer;
        blocks := blocks + {timer};
      }
      ghost var was := slots[..];
      FirstIs(was, null);
      var i := 0;
      while i < TIMER_MAX
        invariant 0 <= i <= First(was, null)
        invariant slots[..] == was
      {
        if slots[i] == null {
          assert was[i] == null;
          slots[i] := timer;
          return;
        }
        assert was[i] != null;
        i := i + 1;
      }
      timer := null;
    }

    /** __kfreebsd_timer_ptr2id */
    method Ptr2Id(p: Timer) returns (id: int)
      requires slots.Length == TIMER_MAX
      ensures id == if p in slots[..] then First(slots[..], p) else -1
    {
      FirstIs(slots[..], p);
      id := 0;
      while id < TIMER_MAX
        invariant 0 <= id <= TIMER_MAX
        invariant forall j :: 0 <= j < id ==> slots[j] != p
      {
        if slots[id] == p { return; }
        id := id + 1;
      }
      id := -1;
    }

    /** A timer is found at the slot it is in. */
    lemma FoundAt(id: nat)
      requires TableOk() && id < TIMER_MAX && slots[id] != null
      ensures slots[id] in slots[..] && First(slots[..], slots[id]) == id
    {
      FirstIs(slots[..], slots[id]);
    }

    /** __kfreebsd_timer_id2ptr: the timer whose id ptr2id says this is, or NULL if there is none. */
    method Id2Ptr(id: int) returns (p: Timer?)
      requires TableOk()
      ensures p != null ==> p in slots[..] && First(slots[..], p) == id
      ensures p == null ==> forall t :: t in slots[..] && t != null ==> First(slots[..], t) != id
    {
      hide First;
      p := null;
      if 0 <= id && id < TIMER_MAX { p := slots[id]; }
      if p != null {
        FoundAt(id);
      } else {
        forall t | t in slots[..] && t != null ensures First(slots[..], t) != id { FirstIs(slots[..], t); }
      }
    }

    /** __kfreebsd_timer_free */
    method Free(p: Timer)
      requires TableOk() && p in slots[..] && p in blocks
      modifies slots, this`blocks
      ensures blocks == old(blocks) - {p}
      ensures TableOk()
      ensures forall i :: 0 <= i < TIMER_MAX ==> slots[i] == if old(slots[i]) == p then null else old(slots[i])
    {
      FirstIs(slots[..], p);
      var id := Ptr2Id(p);
      assert slots[id] == p;
      slots[id] := null;
      blocks := blocks - {p};
    }

    /** newp->next = head; head = newp; */
    method Push(newp: Timer)
      requires ListOk() && newp !in active && newp.notify == SigevThread && newp.params
      modifies this`head, this`active, newp`next
      ensures ListOk() && active == [newp] + old(active)
    {
      ghost var was := active;
      newp.next := head;
      head := newp;
      active := [newp] + was;
      assert forall j :: 0 <= j < |was| ==> was[j].next == Nth(was, j + 1);
      forall i | 0 <= i < |active| ensures active[i].next == Nth(active, i + 1) {
        if i > 0 { assert active[i] == was[i - 1]; }
      }
    }

    /** `rest` is the list without its k-th timer, which is kt. */
    ghost predicate IsRest(rest: seq<Timer>, k: nat, kt: Timer)
      reads this`active
    {
      k < |active| && active[k] == kt && rest == active[..k] + active[k + 1..]
    }

    /** Without its k-th timer the list is linked everywhere but in front of it. */
    lemma RestLinks(rest: seq<Timer>, k: nat, kt: Timer)
      requires ListOk() && IsRest(rest, k, kt)
      ensures kt.next == Nth(rest, k)
      ensures k > 0 ==> head == rest[0] && rest[k - 1] == active[k - 1]
      ensures forall j :: 0 <= j < |rest| && j != k - 1 ==> rest[j].next == Nth(rest, j + 1)
    {
      assert active[k].next == Nth(active, k + 1);
      forall j | 0 <= j < |rest| && j != k - 1
        ensures rest[j].next == Nth(rest, j + 1)
      {
        var i := if j < k then j else j + 1;
        assert rest[j] == active[i];
        assert active[i].next == Nth(active, i + 1);
        if j + 1 < |rest| { assert rest[j + 1] == active[i + 1]; }
      }
    }

    lemma RestHolds(rest: seq<Timer>, k: nat, kt: Timer)
      requires ListOk() && IsRest(rest, k, kt)
      ensures Once(rest) && Served(rest)
      ensures kt !in rest && forall t :: t in active && t != kt <==> t in rest
    {
      OnceWithout(active, k);
      hide Once;
    }

    static lemma OnceWithout(list: seq<Timer>, k: nat)
      requires k < |list| && Once(list)
      ensures var rest := list[..k] + list[k + 1..];
        Once(rest) && list[k] !in rest && forall t :: t in list && t != list[k] <==> t in rest
    {
      var rest := list[..k] + list[k + 1..];
      assert list == list[..k] + [list[k]] + list[k + 1..];
      forall i, j | 0 <= i < j < |rest| ensures rest[i] != rest[j] {
        assert rest[i] == list[if i < k then i else i + 1] && rest[j] == list[if j < k then j else j + 1];
      }
    }

    /** prevp->next = kt->next; */
    method Skip(prevp: Timer, kt: Timer, ghost rest: seq<Timer>, ghost k: nat)
      requires ListOk() && 0 < k && IsRest(rest, k, kt) && active[k - 1] == prevp
      modifies prevp`next
      ensures Linked(rest)
    {
      RestLinks(rest, k, kt);
      prevp.next := kt.next;
    }

    /** The search for the timer in front of kt. */
    method UnlinkBehind(kt: Timer, ghost rest: seq<Timer>, ghost k: nat)
      requires ListOk() && 0 < k && IsRest(rest, k, kt)
      modifies active`next
      ensures Linked(rest)
    {
      var prevp := head;
      ghost var i := 0;
      while prevp.next != null
        invariant 0 <= i < k && prevp == active[i] && prevp.next == active[i + 1]
        invariant unchanged(active)
        decreases k - i
      {
        if prevp.next == kt {
          assert i + 1 == k;
          Skip(prevp, kt, rest, k);
          break;
        } else {
          prevp := prevp.next;
          i := i + 1;
        }
      }
    }

    /** The list starts behind kt. */
    method UnlinkFirst(kt: Timer, ghost rest: seq<Timer>, ghost k: nat)
      requires ListOk() && k == 0 && IsRest(rest, k, kt)
      modifies this`head
      ensures Linked(rest)
    {
      RestLinks(rest, k, kt);
      head := kt.next;
    }

    lemma Relisted()
      requires Linked(active) && Once(active) && Served(active)
      ensures ListOk()
    {
    }

    lemma Split(kt: Timer) returns (k: nat, rest: seq<Timer>)
      requires ListOk() && kt in active
      ensures rest == Without(active, kt) && IsRest(rest, k, kt) && (k == 0 <==> head == kt)
    {
      k := WithoutIs(active, kt);
      rest := active[..k] + active[k + 1..];
    }

    /** The removal in timer_delete. */
    method Unlink(kt: Timer)
      requires ListOk() && kt in active
      modifies this`head, this`active, active`next
      ensures ListOk() && active == Without(old(active), kt)
      ensures kt !in active && forall t :: t in old(active) && t != kt <==> t in active
    {
      hide Without, IsRest, ListOk, Linked, Once, Served;
      ghost var k, rest := Split(kt);
      RestHolds(rest, k, kt);
      if head == kt {
        UnlinkFirst(kt, rest, k);
      } else {
        UnlinkBehind(kt, rest, k);
      }
      active := rest;
      Relisted();
    }

    /** The lookup of the helper thread: which timer on the list has the address taken from a signal, however stale? */
    method Lookup(tk: Ptr) returns (runp: Timer?)
      requires ListOk()
      ensures runp != null ==> runp in active && runp.addr == tk && runp.params
      ensures runp == null ==> forall t :: t in active ==> t.addr != tk
    {
      runp := head;
      ghost var i := 0;
      while runp != null
        invariant 0 <= i <= |active|
        invariant runp == Nth(active, i)
        invariant forall k :: 0 <= k < i ==> active[k].addr != tk
        decreases |active| - i
      {
        if runp.addr == tk { break; }
        runp := runp.next;
        i := i + 1;
      }
    }

    /** timer_create but for SIGEV_THREAD; `ktimerid` is what the kernel answers, or None if it refuses. */
    method CreateSignal(memory: bool, ktimerid: Option<int>) returns (id: Option<int>)
      requires Valid()
      modifies slots, this`blocks
      ensures Valid()
      ensures id == None ==> (blocks == old(blocks) <==> !memory || null in old(slots[..]))
      ensures id.Some? <==> memory && ktimerid.Some? && null in old(slots[..])
      ensures id.Some? ==> id.value == First(old(slots[..]), null)
      ensures id == None ==> slots[..] == old(slots[..])
      ensures id.Some? ==> IsAt(id.value, old(slots[..])) && fresh(slots[id.value])
      ensures id.Some? ==> blocks == old(blocks) + {slots[id.value]}
      ensures id.Some? ==> slots[id.value].notify == Other && slots[id.value].ktimerid == ktimerid.value
    {
      hide ListOk, First, TableOk;
      id := None;
      ghost var f := First(slots[..], null);
      var newp, block := Alloc(memory);
      if newp == null { return; }
      FoundAt(f);
      if ktimerid == None {
        Free(newp);
        return;
      }
      newp.notify := Other;
      newp.ktimerid := ktimerid.value;
      var i := Ptr2Id(newp);
      id := Some(i);
    }

    /** The part of timer_create under the lock. */
    method Attach(newp: Timer)
      requires ListOk() && Matched(newp) && newp in slots[..] && newp.notify == SigevThread && newp.params
      modifies this`head, this`active, newp`next
      ensures ListOk() && Matched(null) && active == [newp] + old(active)
    {
      hide ListOk;
      Push(newp);
    }

    /** timer_create for SIGEV_THREAD. */
    method CreateThread(memory: bool, ktimerid: Option<int>) returns (id: Option<int>)
      requires Valid()
      modifies this`head, this`active, this`blocks, slots
      ensures Valid()
      ensures id == None ==> (blocks == old(blocks) <==> !memory || null in old(slots[..]))
      ensures id.Some? <==> memory && ktimerid.Some? && null in old(slots[..])
      ensures id.Some? ==> id.value == First(old(slots[..]), null)
      ensures id == None ==> slots[..] == old(slots[..]) && active == old(active) && head == old(head)
      ensures id.Some? ==> IsAt(id.value, old(slots[..])) && fresh(slots[id.value])
      ensures id.Some? ==> blocks == old(blocks) + {slots[id.value]}
      ensures id.Some? ==> active == [slots[id.value]] + old(active) && slots[id.value].ktimerid == ktimerid.value
    {
      hide ListOk, First, TableOk;
      id := None;
      ghost var f := First(slots[..], null);
      var newp, block := Alloc(memory);
      if newp == null { return; }
      FoundAt(f);
      newp.params := true;
      newp.notify := SigevThread;
      if ktimerid == None {
        Free(newp);
        return;
      }
      newp.ktimerid := ktimerid.value;
      Attach(newp);
      var i := Ptr2Id(newp);
      id := Some(i);
    }

    /** The part of timer_delete under the lock. */
    method Detach(kt: Timer)
      requires Valid() && kt in slots[..]
      modifies this`head, this`active, active`next
      ensures ListOk() && Matched(kt) && active == Without(old(active), kt)
    {
      assert forall t :: t in active ==> t.notify == SigevThread;
      hide ListOk, Without;
      if kt.notify == SigevThread { Unlink(kt); } else { WithoutNone(active, kt); }
    }

    /** timer_delete; `ok` tells whether the kernel knows the timer. */
    method Delete(id: int, ok: bool) returns (res: int)
      requires Valid()
      modifies this`head, this`active, this`blocks, slots, active`next
      ensures Valid()
      ensures res == if 0 <= id < TIMER_MAX && old(slots[id]) != null && ok then 0 else -1
      ensures res == -1 ==> blocks == old(blocks)
      ensures res == 0 ==> blocks == old(blocks) - {old(slots[id])}
      ensures res == -1 ==> slots[..] == old(slots[..]) && unchanged(old(active))
      ensures res == -1 ==> active == old(active) && head == old(head)
      ensures res == 0 ==> slots[id] == null && forall i :: 0 <= i < TIMER_MAX && i != id ==> slots[i] == old(slots[i])
      ensures res == 0 ==> old(slots[id]) != null && active == Without(old(active), old(slots[id] as Timer))
    {
      hide ListOk, Without, First;
      var kt := Id2Ptr(id);
      if 0 <= id < TIMER_MAX && slots[id] != null { FoundAt(id); }
      if kt != null { FirstIs(slots[..], kt); }
      if kt == null || !ok { return -1; }
      Detach(kt);
      Free(kt);
      res := 0;
    }
  }
}
