/** What getifaddrs reads from the routing socket, and the list of interface addresses it should build from it. */
module IfAddrs {
  import opened Memory
  import Alignment
  import Bits

  // The alignment units are powers of two.
  const LONG_SHIFT: nat
  const ALIGN_SHIFT: nat
  const SIZEOF_LONG: Positive := Bits.Pow2(LONG_SHIFT)    // sizeof (long), the unit of SA_RLEN
  const ALIGN_UNIT: Positive := Bits.Pow2(ALIGN_SHIFT)    // ALIGNBYTES + 1
  const SIZEOF_IF_DATA: nat        // sizeof (ifm->ifm_data)
  const SIZEOF_IFADDRS: Positive   // sizeof (struct ifaddrs)

  // Address kinds in a message, in the order the kernel packs them.
  const RTAX_NETMASK: nat := 2
  const RTAX_IFA: nat := 5
  const RTAX_BRD: nat := 7
  const RTAX_MAX: nat := 8
  const RTA_MASKS: set<nat> := {RTAX_NETMASK, RTAX_IFA, RTAX_BRD}

  // struct sockaddr_dl
  const SDL_NLEN: nat := 5
  const SDL_DATA: nat := 8

  /** One message of the buffer.  `Other` is any message the passes skip: foreign version or other type. */
  datatype Msg =
    | Other
    | IfInfo(hasIfp: bool, index: nat, flags: int, sdl: seq<byte>, data: seq<byte>)
    | NewAddr(index: nat, addrs: set<nat>, body: seq<byte>)

  /** SA_RLEN of a sockaddr whose sa_len is `len`. */
  function Rlen(len: byte): nat {
    if len != 0 then RoundUp(len as nat, SIZEOF_LONG) else SIZEOF_LONG
  }

  lemma RlenBound(len: byte)
    ensures len as nat <= Rlen(len)
  {
  }

  /** The mask of SA_RLEN, in words of w bits. */
  lemma RlenIsMask(len: byte, w: nat)
    requires len != 0 && LONG_SHIFT <= w && len as nat + (SIZEOF_LONG - 1) < Bits.Pow2(w)
    ensures SIZEOF_LONG <= Bits.Pow2(w)
    ensures Bits.And(len as nat + (SIZEOF_LONG - 1), Bits.Pow2(w) - SIZEOF_LONG) == Rlen(len)
  {
    Alignment.MaskRoundsUp(len as nat, LONG_SHIFT, w);
  }

  /** The mask of ALIGN, on an address of w bits. */
  lemma AlignIsMask(p: nat, w: nat)
    requires ALIGN_SHIFT <= w && p + (ALIGN_UNIT - 1) < Bits.Pow2(w)
    ensures ALIGN_UNIT <= Bits.Pow2(w)
    ensures Bits.And(p + (ALIGN_UNIT - 1), Bits.Pow2(w) - ALIGN_UNIT) == RoundUp(p, ALIGN_UNIT)
  {
    Alignment.MaskRoundsUp(p, ALIGN_SHIFT, w);
  }

  function Nlen(sdl: seq<byte>): nat
    requires |sdl| > SDL_NLEN
  {
    sdl[SDL_NLEN] as nat
  }

  // The sockaddrs of an address message.

  datatype Sockaddr = Sockaddr(kind: nat, bytes: seq<byte>)

  predicate Zero(sa: Sockaddr) { sa.bytes != [] && sa.bytes[0] == 0 }

  predicate Selected(addrs: set<nat>, i: nat) { i in RTA_MASKS && i in addrs }

  /** Every selected sockaddr from kind i on, packed from offset p, lies inside the message. */
  predicate Packed(addrs: set<nat>, body: seq<byte>, i: nat, p: nat)
    decreases RTAX_MAX - i, |body|
  {
    i < RTAX_MAX ==>
      if Selected(addrs, i) then
        p < |body| && p + Rlen(body[p]) <= |body| && Packed(addrs, body, i + 1, p + Rlen(body[p]))
      else Packed(addrs, body, i + 1, p)
  }

  function Sockaddrs(addrs: set<nat>, body: seq<byte>, i: nat, p: nat): seq<Sockaddr>
    requires Packed(addrs, body, i, p)
    decreases RTAX_MAX - i, |body|
  {
    if i >= RTAX_MAX then []
    else if Selected(addrs, i) then
      [Sockaddr(i, body[p..p + Rlen(body[p])])] + Sockaddrs(addrs, body, i + 1, p + Rlen(body[p]))
    else Sockaddrs(addrs, body, i + 1, p)
  }

  /** The rounded length of the interface address itself, 0 if the message has none. */
  function Alen(sas: seq<Sockaddr>): nat {
    if sas == [] then 0 else if sas[0].kind == RTAX_IFA then |sas[0].bytes| else Alen(sas[1..])
  }

  /** What the list holds for a sockaddr: a zero-length netmask becomes zeros as long as the address. */
  function Content(sa: Sockaddr, alen: nat): seq<byte> {
    if sa.kind == RTAX_NETMASK && Zero(sa) then Zeros(alen) else sa.bytes
  }

  function TotalSize(sas: seq<Sockaddr>, alen: nat): nat {
    if sas == [] then 0 else |Content(sas[0], alen)| + TotalSize(sas[1..], alen)
  }

  predicate WellFormed(m: Msg) {
    match m
    case Other => true
    case IfInfo(hasIfp, _, _, sdl, data) =>
      hasIfp ==>
        |sdl| >= SDL_DATA && SDL_DATA + Nlen(sdl) <= |sdl| && sdl[0] as nat <= |sdl| && |data| == SIZEOF_IF_DATA
    case NewAddr(_, addrs, body) => Packed(addrs, body, 0, 0)
  }

  predicate AllWellFormed(msgs: seq<Msg>) {
    forall i :: 0 <= i < |msgs| ==> WellFormed(msgs[i])
  }

  // The intended list.

  datatype Node = Node(name: seq<byte>, flags: int, addr: Option<seq<byte>>, netmask: Option<seq<byte>>,
                       broadaddr: Option<seq<byte>>, data: Option<seq<byte>>)

  /** The interface that address messages belong to; index 0 is none. */
  datatype Current = Current(index: nat, name: seq<byte>, flags: int)

  const NOBODY := Current(0, [], 0)

  function Name(m: Msg): (name: seq<byte>)
    requires WellFormed(m) && m.IfInfo? && m.hasIfp
    ensures |name| == Nlen(m.sdl)
  {
    m.sdl[SDL_DATA..SDL_DATA + Nlen(m.sdl)]
  }

  function NextIndex(m: Msg, index: nat): nat {
    if m.IfInfo? then (if m.hasIfp then m.index else 0) else index
  }

  function Next(m: Msg, cur: Current): Current
    requires WellFormed(m)
  {
    if m.IfInfo? && m.hasIfp then Current(m.index, Name(m), m.flags)
    else if m.IfInfo? then cur.(index := 0)
    else cur
  }

  /** An address of another interface than the latest one: "this cannot happen". */
  predicate Mismatch(m: Msg, index: nat) { m.NewAddr? && index != 0 && m.index != index }

  predicate Makes(m: Msg, index: nat) {
    (m.IfInfo? && m.hasIfp) || (m.NewAddr? && index != 0 && m.addrs * RTA_MASKS != {})
  }

  function Pick(sas: seq<Sockaddr>, kind: nat, alen: nat): Option<seq<byte>> {
    if sas == [] then None
    else if sas[0].kind == kind then Some(Content(sas[0], alen))
    else Pick(sas[1..], kind, alen)
  }

  function AddressNode(m: Msg, cur: Current): Node
    requires WellFormed(m) && m.NewAddr?
  {
    var sas := Sockaddrs(m.addrs, m.body, 0, 0);
    Node(cur.name, cur.flags, Pick(sas, RTAX_IFA, Alen(sas)), Pick(sas, RTAX_NETMASK, Alen(sas)),
         Pick(sas, RTAX_BRD, Alen(sas)), None)
  }

  function MakeNode(m: Msg, cur: Current): Node
    requires WellFormed(m) && Makes(m, cur.index)
  {
    if m.IfInfo? then Node(Name(m), m.flags, Some(m.sdl[..m.sdl[0] as nat]), None, None, Some(m.data))
    else AddressNode(m, cur)
  }

  predicate Consistent(msgs: seq<Msg>, index: nat) {
    msgs == [] || (!Mismatch(msgs[0], index) && Consistent(msgs[1..], NextIndex(msgs[0], index)))
  }

  function Nodes(msgs: seq<Msg>, cur: Current): seq<Node>
    requires AllWellFormed(msgs)
  {
    if msgs == [] then []
    else (if Makes(msgs[0], cur.index) then [MakeNode(msgs[0], cur)] else []) + Nodes(msgs[1..], Next(msgs[0], cur))
  }

  // The sizes pass one adds up.

  function DataSize(m: Msg, index: nat): nat
    requires WellFormed(m)
  {
    if !Makes(m, index) then 0
    else if m.IfInfo? then Rlen(m.sdl[0]) + (ALIGN_UNIT - 1) + SIZEOF_IF_DATA
    else var sas := Sockaddrs(m.addrs, m.body, 0, 0); TotalSize(sas, Alen(sas))
  }

  function NameSize(m: Msg, index: nat): nat
    requires WellFormed(m)
  {
    if m.IfInfo? && m.hasIfp then Nlen(m.sdl) + 1 else 0
  }

  function Count(msgs: seq<Msg>, index: nat): nat {
    if msgs == [] then 0
    else (if Makes(msgs[0], index) then 1 else 0) + Count(msgs[1..], NextIndex(msgs[0], index))
  }

  function DataSizes(msgs: seq<Msg>, index: nat): nat
    requires AllWellFormed(msgs)
  {
    if msgs == [] then 0 else DataSize(msgs[0], index) + DataSizes(msgs[1..], NextIndex(msgs[0], index))
  }

  function NameSizes(msgs: seq<Msg>, index: nat): nat
    requires AllWellFormed(msgs)
  {
    if msgs == [] then 0 else NameSize(msgs[0], index) + NameSizes(msgs[1..], NextIndex(msgs[0], index))
  }

  /** Pass one counts exactly the nodes of the list. */
  lemma CountIsLength(msgs: seq<Msg>, cur: Current)
    requires AllWellFormed(msgs)
    ensures Count(msgs, cur.index) == |Nodes(msgs, cur)|
  {
    if msgs != [] {
      CountIsLength(msgs[1..], Next(msgs[0], cur));
    }
  }
}
