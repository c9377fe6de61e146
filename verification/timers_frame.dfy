/** What one thread's action on one timer leaves alone. */
module TimersFrame {
  import opened Memory
  import opened Timers
  import opened TimersInvariant

  /** From s to s' only thread t has moved, and only the block p, its slot and its id are concerned. */
  ghost predicate Touches(s: State, s': State, t: nat, p: Ptr) {
    && t < |s.threads| == |s'.threads|
    && (forall u :: 0 <= u < |s.threads| && u != t ==> s'.threads[u] == s.threads[u])
    && (s.threads[t].Mine() == None || s.threads[t].Mine() == Some(p))
    && (s'.threads[t].Mine() == None || s'.threads[t].Mine() == Some(p))
    && (forall u :: 0 <= u < |s.threads| && u != t ==> s.threads[u].Mine() != Some(p))
    && s'.heap - {p} == s.heap - {p} && s'.owner - {p} == s.owner - {p} && s'.at - {p} == s.at - {p}
    && (forall id :: id in s.issued && s.issued[id] != p ==> id in s'.issued && s'.issued[id] == s.issued[id])
    && (forall id :: id in s'.issued && s'.issued[id] != p ==> id in s.issued && s'.issued[id] == s.issued[id])
    && |s'.slots| == |s.slots|
    && (forall i :: 0 <= i < |s.slots| ==>
          s'.slots[i] == s.slots[i] || (s.slots[i] in {None, Some(p)} && s'.slots[i] in {None, Some(p)}))
  }

  /** The block p and its owner agree. */
  predicate OwnerOk(s: State, t: nat, p: Ptr) {
    && t < |s.threads|
    && (p in s.heap <==> p in s.owner)
    && (s.threads[t].Mine().Some? ==> p in s.owner && s.owner[p] == Thread(t))
    && (p in s.owner ==>
          match s.owner[p]
          case Thread(u) => u == t && s.threads[t].Mine() == Some(p)
          case Client(id) =>
            id in s.issued && s.issued[id] == p && p in s.at && s.at[p] == id && s.heap[p].notify != Unset
          case Leaked => p !in s.at)
    && (forall id :: id in s.issued && s.issued[id] == p ==> p in s.owner && s.owner[p] == Client(id))
  }

  predicate SlotOk(s: State, p: Ptr) {
    && (p in s.at ==> p in s.owner && s.at[p] < |s.slots| && s.slots[s.at[p]] == Some(p))
    && (forall i :: 0 <= i < |s.slots| && s.slots[i] == Some(p) ==> p in s.at && s.at[p] == i)
  }

  lemma MapsAgree<V>(m: map<Ptr, V>, m': map<Ptr, V>, p: Ptr, q: Ptr)
    requires m - {p} == m' - {p} && q != p
    ensures q in m <==> q in m'
    ensures q in m ==> m[q] == m'[q]
  {
    assert q in m <==> q in m - {p};
    assert q in m' <==> q in m' - {p};
    if q in m { assert (m - {p})[q] == (m' - {p})[q]; }
  }

  lemma AllAgree<V>(m: map<Ptr, V>, m': map<Ptr, V>, p: Ptr)
    requires m - {p} == m' - {p}
    ensures forall q :: q != p ==> (q in m <==> q in m') && (q in m ==> m[q] == m'[q])
  {
    forall q | q != p ensures (q in m <==> q in m') && (q in m ==> m[q] == m'[q]) {
      MapsAgree(m, m', p, q);
    }
  }

  lemma SameKeys(s: State, s': State, t: nat, p: Ptr)
    requires s.heap.Keys == s.owner.Keys && Touches(s, s', t, p) && OwnerOk(s', t, p)
    ensures s'.heap.Keys == s'.owner.Keys
  {
    AllAgree(s.heap, s'.heap, p);
    AllAgree(s.owner, s'.owner, p);
    forall q ensures q in s'.heap <==> q in s'.owner {
      assert q in s.heap.Keys <==> q in s.owner.Keys;
    }
  }

  lemma FrameOwner(s: State, s': State, t: nat, p: Ptr, q: Ptr)
    requires Ownership(s) && Touches(s, s', t, p) && q != p && q in s'.owner
    ensures q in s.owner && s'.owner[q] == s.owner[q]
    ensures match s'.owner[q]
            case Thread(u) => u < |s'.threads| && s'.threads[u].Mine() == Some(q)
            case Client(id) => id in s'.issued && s'.issued[id] == q
            case Leaked => q !in s'.at
  {
    MapsAgree(s.owner, s'.owner, p, q);
    MapsAgree(s.at, s'.at, p, q);
  }

  lemma FrameIssued(s: State, s': State, t: nat, p: Ptr, id: nat)
    requires Ownership(s) && Touches(s, s', t, p) && id in s'.issued && s'.issued[id] != p
    ensures var q := s'.issued[id];
      && q in s'.owner && s'.owner[q] == Client(id) && q in s'.at && s'.at[q] == id
      && q in s'.heap && s'.heap[q].notify != Unset
  {
    var q := s'.issued[id];
    assert id in s.issued && s.issued[id] == q;
    MapsAgree(s.heap, s'.heap, p, q);
    MapsAgree(s.owner, s'.owner, p, q);
    MapsAgree(s.at, s'.at, p, q);
  }

  lemma FrameMine(s: State, s': State, t: nat, p: Ptr, u: nat)
    requires Ownership(s) && Touches(s, s', t, p) && u < |s'.threads| && u != t && s'.threads[u].Mine().Some?
    ensures var q := s'.threads[u].Mine().value; q in s'.owner && s'.owner[q] == Thread(u)
  {
    MapsAgree(s.owner, s'.owner, p, s.threads[u].Mine().value);
  }

  lemma FrameOwnership(s: State, s': State, t: nat, p: Ptr)
    requires Ownership(s) && Touches(s, s', t, p) && OwnerOk(s', t, p)
    ensures Ownership(s')
  {
    SameKeys(s, s', t, p);
    assert s'.threads[t].Mine() == None || s'.threads[t].Mine() == Some(p);
    forall q | q in s'.owner && q != p
      ensures match s'.owner[q]
              case Thread(u) => u < |s'.threads| && s'.threads[u].Mine() == Some(q)
              case Client(id) => id in s'.issued && s'.issued[id] == q
              case Leaked => q !in s'.at
    {
      FrameOwner(s, s', t, p, q);
    }
    forall u | 0 <= u < |s'.threads| && u != t && s'.threads[u].Mine().Some?
      ensures var q := s'.threads[u].Mine().value; q in s'.owner && s'.owner[q] == Thread(u)
    {
      FrameMine(s, s', t, p, u);
    }
    forall id | id in s'.issued && s'.issued[id] != p
      ensures var q := s'.issued[id];
        && q in s'.owner && s'.owner[q] == Client(id) && q in s'.at && s'.at[q] == id
        && q in s'.heap && s'.heap[q].notify != Unset
    {
      FrameIssued(s, s', t, p, id);
    }
    hide Touches;
  }

  lemma FrameTable(s: State, s': State, t: nat, p: Ptr)
    requires Table(s) && Touches(s, s', t, p) && SlotOk(s', p)
    ensures Table(s')
  {
    AllAgree(s.owner, s'.owner, p);
    AllAgree(s.at, s'.at, p);
  }

  lemma FrameLocals(s: State, s': State, t: nat, p: Ptr)
    requires Locals(s) && Touches(s, s', t, p) && PcOk(s', s'.threads[t])
    requires s'.head == s.head && s'.active == s.active
    ensures Locals(s')
  {
    hide Before;
    AllAgree(s.heap, s'.heap, p);
    AllAgree(s.at, s'.at, p);
    forall u | 0 <= u < |s'.threads| ensures PcOk(s', s'.threads[u]) {
      if u != t { assert PcOk(s, s.threads[u]); }
    }
  }

  lemma ListedFrame(s: State, s': State, t: nat, p: Ptr, q: Ptr)
    requires Ownership(s) && Touches(s, s', t, p) && q != p
    ensures Listed(s, q) <==> Listed(s', q)
  {
    MapsAgree(s.heap, s'.heap, p, q);
    MapsAgree(s.owner, s'.owner, p, q);
  }

  /** Nothing happens to the list. */
  lemma FrameList(s: State, s': State, t: nat, p: Ptr)
    requires List(s) && Ownership(s) && Touches(s, s', t, p)
    requires s'.head == s.head && s'.active == s.active
    requires Listed(s', p) <==> Listed(s, p)
    requires p in s.active ==> p in s'.heap && s'.heap[p] == s.heap[p]
    ensures List(s')
  {
    AllAgree(s.heap, s'.heap, p);
    ChainFrame(s.head, s.heap, s'.heap, s.active);
    forall q ensures q in s'.active <==> Listed(s', q) {
      if q != p { ListedFrame(s, s', t, p, q); }
    }
  }

  /** An action of one thread that does not touch the list. */
  lemma Frame(s: State, s': State, t: nat, p: Ptr)
    requires Inv(s) && Touches(s, s', t, p)
    requires OwnerOk(s', t, p) && SlotOk(s', p) && PcOk(s', s'.threads[t])
    requires s'.head == s.head && s'.active == s.active && s'.helper == s.helper && Mutex(s')
    requires Listed(s', p) <==> Listed(s, p)
    requires p in s.active ==> p in s'.heap && s'.heap[p] == s.heap[p]
    ensures Inv(s')
  {
    FrameOwnership(s, s', t, p);
    FrameTable(s, s', t, p);
    FrameLocals(s, s', t, p);
    FrameList(s, s', t, p);
  }
}
