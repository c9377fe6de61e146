/** Messages as the kernel lays them out, from the interfaces and addresses they tell of, and the list they lead to. */
module IfAddrsMessages {
  import opened Memory
  import opened IfAddrs
  import opened IfAddrsPasses

  // The layout of a link-level address: struct sockaddr_dl.

  /** An interface; `front` is sdl_family and sdl_index, `rest` what sdl_len covers behind the link-level address. */
  datatype Link = Link(index: nat, flags: int, name: seq<byte>, hardware: seq<byte>, data: seq<byte>,
                       front: seq<byte>, typ: byte, slen: byte, rest: seq<byte>)
  {
    predicate Sized() { |front| == 3 && 8 + |name| + |hardware| + |rest| < 256 && |data| == SIZEOF_IF_DATA }

    /** sdl_len, sdl_family, sdl_index, sdl_type, sdl_nlen, sdl_alen, sdl_slen, sdl_data */
    function Wire(): seq<byte>
      requires Sized()
    {
      [(8 + |name| + |hardware| + |rest|) as byte] + front + [typ, |name| as byte, |hardware| as byte, slen]
        + name + hardware + rest
    }
  }

  // The layout of the other addresses: struct sockaddr, rounded up to the size of a long.

  /** The bytes of a sockaddr, none for a sa_len of 0, and what is between it and the next. */
  datatype Sa = Sa(bytes: seq<byte>, gap: seq<byte>)
  {
    ghost predicate Sized() {
      if bytes == [] then |gap| == SIZEOF_LONG - 1
      else bytes[0] as nat == |bytes| && |gap| < SIZEOF_LONG && Multiple(|bytes| + |gap|, SIZEOF_LONG)
    }

    function Wire(): seq<byte> { (if bytes == [] then [0] else bytes) + gap }
  }

  /** An address of the interface with this index; `others` are kinds that getifaddrs takes no notice of. */
  datatype Address = Address(index: nat, netmask: Option<Sa>, addr: Option<Sa>, broadaddr: Option<Sa>, others: set<nat>)
  {
    ghost predicate Sized() {
      && (netmask.Some? ==> netmask.value.Sized())
      && (addr.Some? ==> addr.value.Sized())
      && (broadaddr.Some? ==> broadaddr.value.Sized())
      && others !! {2, 5, 7}
    }

    predicate Any() { netmask.Some? || addr.Some? || broadaddr.Some? }
  }

  function OnWire(sa: Option<Sa>): seq<byte> { if sa.Some? then sa.value.Wire() else [] }

  function Kind(sa: Option<Sa>, kind: nat): set<nat> { if sa.Some? then {kind} else {} }

  /** What a message tells; the bytes behind those that count are arbitrary. */
  datatype Item =
    | Interface(link: Link, behind: seq<byte>)
    | WithoutLink(index: nat, flags: int, sdl: seq<byte>, data: seq<byte>)
    | Addr(address: Address, behind: seq<byte>)
    | Skipped
  {
    ghost predicate Sized() { (Interface? ==> link.Sized()) && (Addr? ==> address.Sized()) }
  }

  function Message(item: Item): Msg
    requires item.Interface? ==> item.link.Sized()
  {
    match item
    case Interface(l, behind) => IfInfo(true, l.index, l.flags, l.Wire() + behind, l.data)
    case WithoutLink(index, flags, sdl, data) => IfInfo(false, index, flags, sdl, data)
    case Addr(a, behind) =>
      NewAddr(a.index, Kind(a.netmask, 2) + Kind(a.addr, 5) + Kind(a.broadaddr, 7) + a.others,
              OnWire(a.netmask) + OnWire(a.addr) + OnWire(a.broadaddr) + behind)
    case Skipped => Other
  }

  ghost predicate AllSized(items: seq<Item>) { forall k :: 0 <= k < |items| ==> items[k].Sized() }

  function Messages(items: seq<Item>): (msgs: seq<Msg>)
    requires forall k :: 0 <= k < |items| && items[k].Interface? ==> items[k].link.Sized()
    ensures |msgs| == |items|
  {
    seq(|items|, k requires 0 <= k < |items| => Message(items[k]))
  }

  // The list.

  /** The interface that the latest interface message before the k-th item tells of. */
  function Latest(items: seq<Item>, k: nat): Option<Link>
    requires k <= |items|
  {
    if k == 0 || items[k - 1].WithoutLink? then None
    else if items[k - 1].Interface? then Some(items[k - 1].link)
    else Latest(items, k - 1)
  }

  /** The interface of the k-th item, if it is an address and there is one, with an index other than 0. */
  predicate HasOwner(items: seq<Item>, k: nat)
    requires k < |items|
  {
    items[k].Addr? && Latest(items, k).Some? && Latest(items, k).value.index != 0
  }

  /** An interface with its link-level address and data. */
  function LinkNode(l: Link): Node
    requires l.Sized()
  {
    Node(l.name, l.flags, Some(l.Wire()), None, None, Some(l.data))
  }

  function Whole(sa: Option<Sa>): Option<seq<byte>> { if sa.Some? then Some(sa.value.Wire()) else None }

  /** An address under the name and flags of its interface; a netmask of length zero is zeros as long as the address. */
  function AddrNode(l: Link, a: Address): Node {
    Node(l.name, l.flags, Whole(a.addr),
         if a.netmask.Some? && a.netmask.value.bytes == [] then Some(Zeros(|OnWire(a.addr)|)) else Whole(a.netmask),
         Whole(a.broadaddr), None)
  }

  function Listed(items: seq<Item>, k: nat): seq<Node>
    requires k < |items| && (items[k].Interface? ==> items[k].link.Sized())
  {
    if items[k].Interface? then [LinkNode(items[k].link)]
    else if HasOwner(items, k) && items[k].address.Any() then [AddrNode(Latest(items, k).value, items[k].address)]
    else []
  }

  function ListFrom(items: seq<Item>, k: nat): seq<Node>
    requires k <= |items| && forall m :: 0 <= m < |items| && items[m].Interface? ==> items[m].link.Sized()
    decreases |items| - k
  {
    if k == |items| then [] else Listed(items, k) + ListFrom(items, k + 1)
  }

  // Sockaddrs one after the other.

  /** Kinds that are not selected take no room. */
  lemma {:induction false} Unselected(addrs: set<nat>, body: seq<byte>, i: nat, j: nat, p: nat)
    requires i <= j <= RTAX_MAX && forall n :: i <= n < j ==> !Selected(addrs, n)
    requires Packed(addrs, body, j, p)
    ensures Packed(addrs, body, i, p) && Sockaddrs(addrs, body, i, p) == Sockaddrs(addrs, body, j, p)
    decreases j - i
  {
    if i < j { Unselected(addrs, body, i + 1, j, p); }
  }

  lemma WireLength(sa: Sa)
    requires sa.Sized()
    ensures sa.Wire() != [] && |sa.Wire()| == Rlen(sa.Wire()[0]) && (sa.Wire()[0] == 0 <==> sa.bytes == [])
  {
    if sa.bytes != [] { Alignment.RoundUpIs(|sa.bytes|, SIZEOF_LONG, |sa.bytes| + |sa.gap|); }
  }

  /** One that is there is the next of the sockaddrs. */
  lemma OnePiece(addrs: set<nat>, body: seq<byte>, i: nat, p: nat, sa: Option<Sa>)
    requires i in RTA_MASKS && (i in addrs <==> sa.Some?) && (sa.Some? ==> sa.value.Sized())
    requires p + |OnWire(sa)| <= |body| && body[p..p + |OnWire(sa)|] == OnWire(sa)
    requires Packed(addrs, body, i + 1, p + |OnWire(sa)|)
    ensures Packed(addrs, body, i, p)
    ensures Sockaddrs(addrs, body, i, p)
         == Piece(sa, i) + Sockaddrs(addrs, body, i + 1, p + |OnWire(sa)|)
  {
    if sa.Some? {
      WireLength(sa.value);
      assert body[p] == body[p..p + |OnWire(sa)|][0];
    }
  }

  function Piece(sa: Option<Sa>, kind: nat): seq<Sockaddr> { if sa.Some? then [Sockaddr(kind, OnWire(sa))] else [] }

  lemma Kinds(a: Address, addrs: set<nat>)
    requires addrs == Kind(a.netmask, 2) + Kind(a.addr, 5) + Kind(a.broadaddr, 7) + a.others && a.others !! {2, 5, 7}
    ensures 2 in addrs <==> a.netmask.Some?
    ensures 5 in addrs <==> a.addr.Some?
    ensures 7 in addrs <==> a.broadaddr.Some?
  {
  }

  /** The sockaddr of one kind, if it is there, in front of those of higher kinds; `from` is behind the kind before. */
  lemma NextPiece(addrs: set<nat>, body: seq<byte>, from: nat, kind: nat, p: nat, sa: Option<Sa>, rest: seq<Sockaddr>)
    requires (from, kind) in {(0, 2), (3, 5), (6, 7)}
    requires (kind in addrs <==> sa.Some?) && (sa.Some? ==> sa.value.Sized())
    requires p + |OnWire(sa)| <= |body| && body[p..p + |OnWire(sa)|] == OnWire(sa)
    requires Packed(addrs, body, kind + 1, p + |OnWire(sa)|)
    requires Sockaddrs(addrs, body, kind + 1, p + |OnWire(sa)|) == rest
    ensures Packed(addrs, body, from, p) && Sockaddrs(addrs, body, from, p) == Piece(sa, kind) + rest
  {
    OtherKinds(addrs);
    hide OnWire, Packed, Sockaddrs, Piece, Selected;
    OnePiece(addrs, body, kind, p, sa);
    Unselected(addrs, body, from, kind, p);
  }

  lemma Pieces(a: Address, addrs: set<nat>, body: seq<byte>, behind: seq<byte>)
    requires a.Sized() && body == OnWire(a.netmask) + OnWire(a.addr) + OnWire(a.broadaddr) + behind
    requires addrs == Kind(a.netmask, 2) + Kind(a.addr, 5) + Kind(a.broadaddr, 7) + a.others
    ensures Packed(addrs, body, 0, 0)
    ensures Sockaddrs(addrs, body, 0, 0) == Piece(a.netmask, 2) + (Piece(a.addr, 5) + (Piece(a.broadaddr, 7) + []))
  {
    hide OnWire, Kind, Packed, Sockaddrs, Piece;
    var n := |OnWire(a.netmask)|;
    var p := n + |OnWire(a.addr)|;
    var last := Piece(a.broadaddr, 7) + [];
    Kinds(a, addrs);
    Between(OnWire(a.netmask), OnWire(a.addr), OnWire(a.broadaddr), behind);
    NoMore(addrs, body, p + |OnWire(a.broadaddr)|);
    NextPiece(addrs, body, 6, 7, p, a.broadaddr, []);
    NextPiece(addrs, body, 3, 5, n, a.addr, last);
    NextPiece(addrs, body, 0, 2, 0, a.netmask, Piece(a.addr, 5) + last);
  }

  lemma OtherKinds(addrs: set<nat>)
    ensures forall n: nat :: n !in {2, 5, 7} ==> !Selected(addrs, n)
  {
  }

  lemma NoMore(addrs: set<nat>, body: seq<byte>, p: nat)
    ensures Packed(addrs, body, RTAX_MAX, p) && Sockaddrs(addrs, body, RTAX_MAX, p) == []
  {
  }

  lemma Between(a: seq<byte>, b: seq<byte>, c: seq<byte>, d: seq<byte>)
    ensures var s := a + b + c + d;
      && s[0..|a|] == a && s[|a|..|a| + |b|] == b && s[|a| + |b|..|a| + |b| + |c|] == c
  {
  }

  function Length(bytes: Option<seq<byte>>): nat { if bytes.Some? then |bytes.value| else 0 }

  /** The node of an address message, and the room that pass one counts for it. */
  lemma AddrNodeIs(l: Link, a: Address, behind: seq<byte>, cur: Current)
    requires a.Sized() && a.Any() && cur == Current(l.index, l.name, l.flags) && l.index != 0
    ensures var m := Message(Addr(a, behind)); var node := AddrNode(l, a);
      && WellFormed(m) && Makes(m, cur.index) && MakeNode(m, cur) == node
      && DataSize(m, cur.index) == Length(node.netmask) + Length(node.addr) + Length(node.broadaddr)
  {
    var m := Message(Addr(a, behind));
    Pieces(a, m.addrs, m.body, behind);
    assert m.addrs * RTA_MASKS != {} by {
      var kind := if a.netmask.Some? then 2 else if a.addr.Some? then 5 else 7;
      assert kind in m.addrs * RTA_MASKS;
    }
    hide Packed, Sockaddrs;
    Wires(a);
    PickIs(a, 2);
    PickIs(a, 5);
    PickIs(a, 7);
  }

  lemma Wires(a: Address)
    requires a.Sized()
    ensures a.netmask.Some? ==> (Zero(Sockaddr(2, OnWire(a.netmask))) <==> a.netmask.value.bytes == [])
  {
    if a.netmask.Some? { WireLength(a.netmask.value); }
  }

  lemma PieceFirst(sa: Option<Sa>, kind: nat, rest: seq<Sockaddr>, want: nat, alen: nat)
    ensures var sas := Piece(sa, kind) + rest; var content := Content(Sockaddr(kind, OnWire(sa)), alen);
      && Alen(sas) == (if sa.Some? && kind == 5 then |OnWire(sa)| else Alen(rest))
      && Pick(sas, want, alen) == (if sa.Some? && kind == want then Some(content) else Pick(rest, want, alen))
      && TotalSize(sas, alen) == (if sa.Some? then |content| else 0) + TotalSize(rest, alen)
  {
    var sas := Piece(sa, kind) + rest;
    if sa.Some? { assert sas[1..] == rest; } else { assert sas == rest; }
  }

  lemma PickIs(a: Address, want: nat)
    ensures var sas := Piece(a.netmask, 2) + (Piece(a.addr, 5) + (Piece(a.broadaddr, 7) + []));
      var n := Content(Sockaddr(2, OnWire(a.netmask)), |OnWire(a.addr)|); var alen := |OnWire(a.addr)|;
      && Alen(sas) == alen
      && Pick(sas, want, alen) == (if want == 2 then if a.netmask.Some? then Some(n) else None
                                   else if want == 5 then Whole(a.addr)
                                   else if want == 7 then Whole(a.broadaddr) else None)
      && TotalSize(sas, alen) == (if a.netmask.Some? then |n| else 0) + alen + |OnWire(a.broadaddr)|
  {
    hide Piece, Alen, Pick, TotalSize;
    var last := Piece(a.broadaddr, 7) + [];
    var alen := |OnWire(a.addr)|;
    NoPiece(want, alen);
    PieceFirst(a.broadaddr, 7, [], want, alen);
    PieceFirst(a.addr, 5, last, want, alen);
    PieceFirst(a.netmask, 2, Piece(a.addr, 5) + last, want, alen);
  }

  lemma NoPiece(want: nat, alen: nat)
    ensures Alen([]) == 0 && TotalSize([], alen) == 0 && Pick([], want, alen) == None
  {
  }

  // The messages one after the other.

  /** The name of an interface message, wherever it stands in the message. */
  lemma LinkNodeIs(l: Link, behind: seq<byte>, cur: Current)
    requires l.Sized()
    ensures var m := Message(Interface(l, behind));
      && WellFormed(m) && MakeNode(m, cur) == LinkNode(l) && Next(m, cur) == Current(l.index, l.name, l.flags)
      && DataSize(m, cur.index) == RoundUp(|l.Wire()|, SIZEOF_LONG) + (ALIGN_UNIT - 1) + SIZEOF_IF_DATA
      && NameSize(m, cur.index) == |l.name| + 1
  {
    var head := l.Wire()[..8];
    assert l.Wire() + behind == head + l.name + (l.hardware + l.rest + behind);
    var m := Message(Interface(l, behind));
    assert |head| == 8 && m.sdl[..|l.Wire()|] == l.Wire();
    assert m.sdl[0] as nat == |l.Wire()| && m.sdl[5] as nat == |l.name|;
    assert m.sdl[8..8 + |l.name|] == l.name;
  }

  /** The interface that pass one and two have in their hands. */
  predicate Follows(cur: Current, l: Option<Link>) {
    && cur.index == (if l.Some? then l.value.index else 0)
    && (l.Some? && l.value.index != 0 ==> cur == Current(l.value.index, l.value.name, l.value.flags))
  }

  /** What pass one counts for an interface, and for an address: all that its node holds. */
  function Room(items: seq<Item>, k: nat): nat
    requires k < |items| && (items[k].Interface? ==> items[k].link.Sized())
  {
    if items[k].Interface? then RoundUp(|items[k].link.Wire()|, SIZEOF_LONG) + (ALIGN_UNIT - 1) + SIZEOF_IF_DATA
    else if Listed(items, k) == [] then 0
    else var node := Listed(items, k)[0]; Length(node.netmask) + Length(node.addr) + Length(node.broadaddr)
  }

  function RoomFrom(items: seq<Item>, k: nat): nat
    requires k <= |items| && forall m :: 0 <= m < |items| && items[m].Interface? ==> items[m].link.Sized()
    decreases |items| - k
  {
    if k == |items| then 0 else Room(items, k) + RoomFrom(items, k + 1)
  }

  function NamesFrom(items: seq<Item>, k: nat): nat
    requires k <= |items|
    decreases |items| - k
  {
    if k == |items| then 0
    else (if items[k].Interface? then |items[k].link.name| + 1 else 0) + NamesFrom(items, k + 1)
  }

  /** The k-th item is no address of another interface than the latest one. */
  predicate Belongs(items: seq<Item>, k: nat)
    requires k < |items|
  {
    HasOwner(items, k) ==> items[k].address.index == Latest(items, k).value.index
  }

  lemma OneItem(items: seq<Item>, k: nat, cur: Current)
    requires k < |items| && items[k].Sized() && Follows(cur, Latest(items, k))
    ensures var m := Message(items[k]);
      && WellFormed(m) && Follows(Next(m, cur), Latest(items, k + 1))
      && (if Makes(m, cur.index) then [MakeNode(m, cur)] else []) == Listed(items, k)
      && (Mismatch(m, cur.index) <==> !Belongs(items, k))
      && DataSize(m, cur.index) == Room(items, k)
      && NameSize(m, cur.index) == if items[k].Interface? then |items[k].link.name| + 1 else 0
  {
    hide MakeNode, DataSize, Packed, Sockaddrs;
    match items[k]
    case Interface(l, behind) => LinkNodeIs(l, behind, cur);
    case Addr(a, behind) =>
      AddrIsWellFormed(a, behind);
      if HasOwner(items, k) && a.Any() {
        AddrNodeIs(Latest(items, k).value, a, behind, cur);
      } else {
        NoNode(a, behind, cur);
      }
    case WithoutLink(_, _, _, _) => MakesNothing(Message(items[k]), cur);
    case Skipped => MakesNothing(Message(items[k]), cur);
  }

  lemma MakesNothing(m: Msg, cur: Current)
    requires WellFormed(m) && !Makes(m, cur.index)
    ensures DataSize(m, cur.index) == 0
  {
  }

  lemma AddrIsWellFormed(a: Address, behind: seq<byte>)
    requires a.Sized()
    ensures WellFormed(Message(Addr(a, behind)))
  {
    var m := Message(Addr(a, behind));
    Pieces(a, m.addrs, m.body, behind);
  }

  lemma NoNode(a: Address, behind: seq<byte>, cur: Current)
    requires a.Sized() && (cur.index == 0 || !a.Any())
    ensures var m := Message(Addr(a, behind)); WellFormed(m) && !Makes(m, cur.index) && DataSize(m, cur.index) == 0
  {
    AddrIsWellFormed(a, behind);
    hide Packed;
    var m := Message(Addr(a, behind));
    if !a.Any() { assert m.addrs * RTA_MASKS == {}; }
    MakesNothing(m, cur);
  }

  /** The list, the verdict and the sizes, from the k-th message on. */
  lemma {:induction false} FromItem(items: seq<Item>, k: nat, cur: Current)
    requires AllSized(items) && k <= |items| && Follows(cur, Latest(items, k))
    requires AllWellFormed(Messages(items))
    ensures var msgs := Messages(items)[k..];
      && Nodes(msgs, cur) == ListFrom(items, k)
      && (Consistent(msgs, cur.index) <==> forall m :: k <= m < |items| ==> Belongs(items, m))
      && DataSizes(msgs, cur.index) == RoomFrom(items, k) && NameSizes(msgs, cur.index) == NamesFrom(items, k)
    decreases |items| - k
  {
    hide Follows, Belongs, Latest, Listed, Room, Message, WellFormed, Makes, MakeNode, DataSize, NameSize, Mismatch;
    var all := Messages(items);
    if k == |items| {
      NoMessage(all, cur);
    } else {
      OneItem(items, k, cur);
      OneMessage(all, k, cur);
      FromItem(items, k + 1, Next(all[k], cur));
    }
  }

  /**
    On messages laid out as the kernel does, the list of getifaddrs is these interfaces and addresses, in order: each
    address under the name and flags of the latest interface, none without one.  The messages are refused exactly if one
    address belongs to another interface, and the two areas of the block have room for exactly what the nodes hold.
  */
  lemma ListIs(items: seq<Item>)
    requires AllSized(items)
    ensures var msgs := Messages(items);
      && AllWellFormed(msgs)
      && Nodes(msgs, NOBODY) == ListFrom(items, 0)
      && (Consistent(msgs, 0) <==> forall k :: 0 <= k < |items| ==> Belongs(items, k))
      && DataSizes(msgs, 0) == RoomFrom(items, 0) && NameSizes(msgs, 0) == NamesFrom(items, 0)
  {
    var msgs := Messages(items);
    forall k | 0 <= k < |msgs| ensures WellFormed(msgs[k]) { ItemIsWellFormed(items[k]); }
    FromItem(items, 0, NOBODY);
    assert msgs[0..] == msgs;
  }

  lemma ItemIsWellFormed(item: Item)
    requires item.Sized()
    ensures WellFormed(Message(item))
  {
    hide Packed;
    if item.Interface? { LinkNodeIs(item.link, item.behind, NOBODY); }
    if item.Addr? { AddrIsWellFormed(item.address, item.behind); }
  }
}
