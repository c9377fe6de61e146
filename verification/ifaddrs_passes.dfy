/** The two passes of getifaddrs over the message buffer. */
module IfAddrsPasses {
  import opened Memory
  import opened IfAddrs
  import opened IfAddrsLayout

  lemma SockaddrsStep(addrs: set<nat>, body: seq<byte>, i: nat, p: nat)
    requires Packed(addrs, body, i, p) && i < RTAX_MAX && Selected(addrs, i)
    ensures var sas := Sockaddrs(addrs, body, i, p);
      && sas != [] && sas[0].kind == i && |sas[0].bytes| == Rlen(body[p]) > 0
      && (Zero(sas[0]) <==> body[p] == 0)
      && sas[1..] == Sockaddrs(addrs, body, i + 1, p + Rlen(body[p]))
  {
  }

  /** "Scan to look for length of address". */
  method ScanAlen(addrs: set<nat>, body: seq<byte>) returns (alen: nat)
    requires Packed(addrs, body, 0, 0)
    ensures alen == Alen(Sockaddrs(addrs, body, 0, 0))
  {
    alen := 0;
    var p: nat := 0;
    for i := 0 to RTAX_MAX
      invariant Packed(addrs, body, i, p) && alen == 0
      invariant Alen(Sockaddrs(addrs, body, i, p)) == Alen(Sockaddrs(addrs, body, 0, 0))
    {
      if Selected(addrs, i) {
        SockaddrsStep(addrs, body, i, p);
        var len := Rlen(body[p]);
        if i == RTAX_IFA { return len; }
        p := p + len;
      }
    }
  }

  method SumSizes(addrs: set<nat>, body: seq<byte>, alen: nat) returns (sum: nat)
    requires Packed(addrs, body, 0, 0)
    ensures sum == TotalSize(Sockaddrs(addrs, body, 0, 0), alen)
  {
    sum := 0;
    var p: nat := 0;
    for i := 0 to RTAX_MAX
      invariant Packed(addrs, body, i, p)
      invariant sum + TotalSize(Sockaddrs(addrs, body, i, p), alen) == TotalSize(Sockaddrs(addrs, body, 0, 0), alen)
    {
      if Selected(addrs, i) {
        SockaddrsStep(addrs, body, i, p);
        var len := Rlen(body[p]);
        if i == RTAX_NETMASK && body[p] == 0 { sum := sum + alen; } else { sum := sum + len; }
        p := p + len;
      }
    }
  }

  /** Pass one: sizes.  It gives up exactly when an address belongs to another interface than the latest one. */
  method PassOne(msgs: seq<Msg>) returns (ok: bool, icnt: nat, dcnt: nat, ncnt: nat)
    requires AllWellFormed(msgs)
    ensures ok <==> Consistent(msgs, 0)
    ensures ok ==> icnt == 1 + Count(msgs, 0) && dcnt == DataSizes(msgs, 0) && ncnt == NameSizes(msgs, 0)
  {
    icnt, dcnt, ncnt := 1, 0, 0;
    var idx := 0;
    for k := 0 to |msgs|
      invariant Consistent(msgs, 0) <==> Consistent(msgs[k..], idx)
      invariant icnt + Count(msgs[k..], idx) == 1 + Count(msgs, 0)
      invariant dcnt + DataSizes(msgs[k..], idx) == DataSizes(msgs, 0)
      invariant ncnt + NameSizes(msgs[k..], idx) == NameSizes(msgs, 0)
    {
      assert msgs[k..][1..] == msgs[k + 1..];
      assert WellFormed(msgs[k]);
      match msgs[k]
      case IfInfo(hasIfp, index, _, sdl, _) =>
        if hasIfp {
          idx := index;
          icnt := icnt + 1;
          dcnt := dcnt + Rlen(sdl[0]) + (ALIGN_UNIT - 1);
          dcnt := dcnt + SIZEOF_IF_DATA;
          ncnt := ncnt + Nlen(sdl) + 1;
        } else {
          idx := 0;
        }
      case NewAddr(index, addrs, body) =>
        if idx != 0 && index != idx {
          return false, icnt, dcnt, ncnt;
        }
        if idx != 0 && addrs * RTA_MASKS != {} {
          icnt := icnt + 1;
          var alen := ScanAlen(addrs, body);
          var sum := SumSizes(addrs, body, alen);
          dcnt := dcnt + sum;
        }
      case Other =>
    }
    ok := true;
  }

  lemma {:induction false} PickBelow(addrs: set<nat>, body: seq<byte>, i: nat, p: nat, kind: nat, alen: nat)
    requires Packed(addrs, body, i, p) && kind < i
    ensures Pick(Sockaddrs(addrs, body, i, p), kind, alen) == None
    decreases RTAX_MAX - i
  {
    if i < RTAX_MAX {
      if Selected(addrs, i) {
        SockaddrsStep(addrs, body, i, p);
        PickBelow(addrs, body, i + 1, p + Rlen(body[p]), kind, alen);
      } else {
        PickBelow(addrs, body, i + 1, p, kind, alen);
      }
    }
  }

  // The record of an address, pointer by pointer.

  function Field(r: Rec, kind: nat): Option<Region> {
    if kind == RTAX_IFA then r.addr
    else if kind == RTAX_NETMASK then r.netmask
    else if kind == RTAX_BRD then r.broadaddr
    else None
  }

  function SetField(r: Rec, kind: nat, p: Region): Rec {
    if kind == RTAX_IFA then r.(addr := Some(p))
    else if kind == RTAX_NETMASK then r.(netmask := Some(p))
    else if kind == RTAX_BRD then r.(broadaddr := Some(p))
    else r
  }

  /** The pointer of one kind, when the kinds below i have been copied and `rest` has not. */
  predicate FieldOk(r: Rec, kind: nat, b: seq<byte>, lo: nat, data: nat, all: seq<Sockaddr>, rest: seq<Sockaddr>,
    i: nat, alen: nat) {
    var f := Field(r, kind);
    && (f.Some? ==> Inside(f.value, lo, data)) && data <= |b|
    && if kind < i then Read(f, b) == Pick(all, kind, alen)
       else f == None && Pick(rest, kind, alen) == Pick(all, kind, alen)
  }

  predicate Partial(r: Rec, b: seq<byte>, lo: nat, data: nat, all: seq<Sockaddr>, rest: seq<Sockaddr>, i: nat,
    alen: nat) {
    && r.data == None
    && Ordered(DataRegions(r), lo, data)
    && FieldOk(r, RTAX_NETMASK, b, lo, data, all, rest, i, alen)
    && FieldOk(r, RTAX_IFA, b, lo, data, all, rest, i, alen)
    && FieldOk(r, RTAX_BRD, b, lo, data, all, rest, i, alen)
  }

  lemma FieldCopied(r: Rec, kind: nat, b: seq<byte>, b': seq<byte>, lo: nat, data: nat, all: seq<Sockaddr>,
    rest: seq<Sockaddr>, i: nat, alen: nat)
    requires kind in RTA_MASKS && i in RTA_MASKS && lo <= data
    requires FieldOk(r, kind, b, lo, data, all, rest, i, alen) && rest != [] && rest[0].kind == i
    requires |b| == |b'| && b[..data] == b'[..data]
    requires var n := |Content(rest[0], alen)|; data + n <= |b'| && b'[data..data + n] == Content(rest[0], alen)
    ensures var n := |Content(rest[0], alen)|;
      FieldOk(SetField(r, i, Region(data, n)), kind, b', lo, data + n, all, rest[1..], i + 1, alen)
  {
    var f := Field(r, kind);
    if f.Some? {
      SameSlice(b, b', 0, data, f.value);
    }
  }

  /** The kinds are copied in the order in which the record lists its regions. */
  lemma OneMoreRegion(r: Rec, b: seq<byte>, lo: nat, data: nat, all: seq<Sockaddr>, rest: seq<Sockaddr>, i: nat,
    alen: nat, n: nat)
    requires i in RTA_MASKS && Partial(r, b, lo, data, all, rest, i, alen)
    ensures SetField(r, i, Region(data, n)).data == None
    ensures DataRegions(SetField(r, i, Region(data, n))) == DataRegions(r) + [Region(data, n)]
  {
    hide Pick, Ordered;
  }

  lemma Copied(r: Rec, b: seq<byte>, b': seq<byte>, lo: nat, data: nat, all: seq<Sockaddr>, rest: seq<Sockaddr>,
    i: nat, alen: nat)
    requires i in RTA_MASKS && Partial(r, b, lo, data, all, rest, i, alen) && rest != [] && rest[0].kind == i
    requires |b| == |b'| && b[..data] == b'[..data]
    requires var n := |Content(rest[0], alen)|; data + n <= |b'| && b'[data..data + n] == Content(rest[0], alen)
    ensures var n := |Content(rest[0], alen)|;
      Partial(SetField(r, i, Region(data, n)), b', lo, data + n, all, rest[1..], i + 1, alen)
  {
    hide Pick, FieldOk, SetField, DataRegions, Content;
    var n := |Content(rest[0], alen)|;
    OneMoreRegion(r, b, lo, data, all, rest, i, alen, n);
    OrderedFrom(DataRegions(r), lo, lo, data);
    FieldCopied(r, RTAX_NETMASK, b, b', lo, data, all, rest, i, alen);
    FieldCopied(r, RTAX_IFA, b, b', lo, data, all, rest, i, alen);
    FieldCopied(r, RTAX_BRD, b, b', lo, data, all, rest, i, alen);
    OrderedAppend(DataRegions(r), [Region(data, n)], lo, data, data + n);
  }

  lemma Skipped(r: Rec, b: seq<byte>, lo: nat, data: nat, all: seq<Sockaddr>, addrs: set<nat>, body: seq<byte>,
    i: nat, p: nat, alen: nat)
    requires i < RTAX_MAX && !Selected(addrs, i) && Packed(addrs, body, i, p)
    requires Partial(r, b, lo, data, all, Sockaddrs(addrs, body, i, p), i, alen)
    ensures Partial(r, b, lo, data, all, Sockaddrs(addrs, body, i + 1, p), i + 1, alen)
  {
    PickBelow(addrs, body, i + 1, p, i, alen);
  }

  /** A finished address record, once linked, is the node it should be. */
  lemma AddressDone(r0: Rec, own: Rec, i: nat, b: seq<byte>, b': seq<byte>, lo: nat, data: nat, namesLo: nat,
    names: nat, m: Msg, cur: Current)
    requires WellFormed(m) && m.NewAddr? && Makes(m, cur.index)
    requires Same(b, b', lo, namesLo, names) && lo <= data <= namesLo
    requires Fits(own, lo, namesLo, names) && Readable(own, |b|) && Terminated(own, b)
    requires View(own, b).name == cur.name && own.flags == cur.flags
    requires r0.name == own.name && r0.flags == own.flags
    requires var sas := Sockaddrs(m.addrs, m.body, 0, 0); Partial(r0, b', lo, data, sas, [], RTAX_MAX, Alen(sas))
    ensures var r := r0.(next := Some(i + 1));
      && Made(r, i, b', data, namesLo, names) && View(r, b') == MakeNode(m, cur)
      && Ordered(DataRegions(r), lo, data) && Ordered(NameRegions(r), names, names)
  {
    hide Pick, Sockaddrs, Packed, Alen, AllData;
    var r := r0.(next := Some(i + 1));
    ViewFrame(own, b, b', lo, namesLo, names);
    assert DataRegions(r) == DataRegions(r0);
    OrderedDisjoint(DataRegions(r), lo, data);
    assert Fits(r, data, namesLo, names);
    FitsReadable(r, data, namesLo, names);
    assert b'[r.name.off..r.name.off + r.name.len - 1] == View(own, b').name;
  }

  // The record of an interface.

  predicate NameOk(r: Rec, b: seq<byte>, lower: nat, names: nat, m: Msg)
    requires WellFormed(m) && m.IfInfo? && m.hasIfp
  {
    && names == lower + Nlen(m.sdl) + 1 <= |b|
    && r.name == Region(lower, Nlen(m.sdl) + 1) && r.flags == m.flags
    && b[lower..names - 1] == Name(m) && b[names - 1] == 0
  }

  predicate LinkOk(r: Rec, b: seq<byte>, lo: nat, data: nat, m: Msg)
    requires WellFormed(m) && m.IfInfo? && m.hasIfp
  {
    var salen := m.sdl[0] as nat;
    && lo + salen + SIZEOF_IF_DATA <= data <= |b|
    && r.addr == Some(Region(lo, salen)) && b[lo..lo + salen] == m.sdl[..salen]
    && r.data == Some(Region(data - SIZEOF_IF_DATA, SIZEOF_IF_DATA)) && b[data - SIZEOF_IF_DATA..data] == m.data
  }

  lemma NameWritten(r: Rec, b: seq<byte>, lower: nat, data: nat, namesLo: nat, m: Msg)
    requires WellFormed(m) && m.IfInfo? && m.hasIfp
    requires data <= namesLo <= lower && lower + Nlen(m.sdl) + 1 <= |b|
    requires r.name == Region(lower, Nlen(m.sdl) + 1) && r.flags == m.flags
    ensures |Splice(b, lower, Name(m))| == |b|
    ensures var b2 := Splice(Splice(b, lower, Name(m)), lower + Nlen(m.sdl), [0]);
      NameOk(r, b2, lower, lower + Nlen(m.sdl) + 1, m) && Same(b, b2, data, namesLo, lower)
  {
    var n := lower + Nlen(m.sdl);
    var b1 := Splice(b, lower, Name(m));
    Spliced(b, lower, Name(m));
    Spliced(b1, n, [0]);
    SpliceKeeps(b1, n, [0], lower, n);
    SpliceKeeps(b, lower, Name(m), 0, data);
    SpliceKeeps(b1, n, [0], 0, data);
    SpliceKeeps(b, lower, Name(m), namesLo, lower);
    SpliceKeeps(b1, n, [0], namesLo, lower);
    assert Splice(b1, n, [0])[n] == Splice(b1, n, [0])[n..n + 1][0];
  }

  lemma LinkWritten(r: Rec, b: seq<byte>, lo: nat, aligned: nat, namesLo: nat, names: nat, m: Msg)
    requires WellFormed(m) && m.IfInfo? && m.hasIfp
    requires var salen := m.sdl[0] as nat; lo + salen <= aligned && aligned + SIZEOF_IF_DATA <= namesLo <= names <= |b|
    requires r.addr == Some(Region(lo, m.sdl[0] as nat)) && r.data == Some(Region(aligned, SIZEOF_IF_DATA))
    ensures |Splice(b, lo, m.sdl[..m.sdl[0] as nat])| == |b|
    ensures var b2 := Splice(Splice(b, lo, m.sdl[..m.sdl[0] as nat]), aligned, m.data);
      LinkOk(r, b2, lo, aligned + SIZEOF_IF_DATA, m) && Same(b, b2, lo, namesLo, names)
  {
    var salen := m.sdl[0] as nat;
    var b1 := Splice(b, lo, m.sdl[..salen]);
    Spliced(b, lo, m.sdl[..salen]);
    Spliced(b1, aligned, m.data);
    SpliceKeeps(b1, aligned, m.data, lo, lo + salen);
    SpliceKeeps(b, lo, m.sdl[..salen], 0, lo);
    SpliceKeeps(b1, aligned, m.data, 0, lo);
    SpliceKeeps(b, lo, m.sdl[..salen], namesLo, names);
    SpliceKeeps(b1, aligned, m.data, namesLo, names);
  }

  /** What is written in the data area after a name leaves the name. */
  lemma NameKept(r: Rec, r': Rec, b0: seq<byte>, b1: seq<byte>, b2: seq<byte>, data: nat, namesLo: nat, lower: nat,
    names: nat, m: Msg)
    requires WellFormed(m) && m.IfInfo? && m.hasIfp
    requires NameOk(r, b1, lower, names, m) && r'.name == r.name && r'.flags == r.flags
    requires Same(b0, b1, data, namesLo, lower) && Same(b1, b2, data, namesLo, names)
    ensures Same(b0, b2, data, namesLo, lower) && NameOk(r', b2, lower, names, m)
  {
    SameSlice(b1, b2, namesLo, names, Region(namesLo, lower - namesLo));
    SameSlice(b1, b2, namesLo, names, Region(lower, names - 1 - lower));
    SameSlice(b1, b2, namesLo, names, Region(names - 1, 1));
    assert b2[names - 1] == b2[names - 1..names][0] == b1[names - 1..names][0];
  }

  /** A finished interface record, once linked, is the node it should be, and owns its name. */
  lemma InterfaceDone(r0: Rec, i: nat, b: seq<byte>, lo: nat, data: nat, namesLo: nat, lower: nat, names: nat,
    m: Msg, cur: Current)
    requires WellFormed(m) && m.IfInfo? && m.hasIfp
    requires data <= namesLo <= lower && NameOk(r0, b, lower, names, m) && LinkOk(r0, b, lo, data, m)
    requires r0.netmask == None && r0.broadaddr == None
    ensures var r := r0.(next := Some(i + 1));
      && Made(r, i, b, data, namesLo, names) && View(r, b) == MakeNode(m, cur)
      && Ordered(DataRegions(r), lo, data) && Ordered(NameRegions(r), lower, names)
  {
    assert DataRegions(r0.(next := Some(i + 1))) == [r0.addr.value, r0.data.value];
  }

  /** The sums over the messages from k on, one message at a time. */
  lemma OneMessage(msgs: seq<Msg>, k: nat, cur: Current)
    requires AllWellFormed(msgs) && k < |msgs|
    ensures var m := msgs[k]; var rest := msgs[k + 1..]; var idx := cur.index; var idx' := Next(m, cur).index;
      && (Consistent(msgs[k..], idx) <==> !Mismatch(m, idx) && Consistent(rest, idx'))
      && Nodes(msgs[k..], cur) == (if Makes(m, idx) then [MakeNode(m, cur)] else []) + Nodes(rest, Next(m, cur))
      && DataSizes(msgs[k..], idx) == DataSize(m, idx) + DataSizes(rest, idx')
      && NameSizes(msgs[k..], idx) == NameSize(m, idx) + NameSizes(rest, idx')
      && Count(msgs[k..], idx) == (if Makes(m, idx) then 1 else 0) + Count(rest, idx')
  {
    assert msgs[k..][1..] == msgs[k + 1..];
  }

  lemma NoMessage(msgs: seq<Msg>, cur: Current)
    ensures var none := msgs[|msgs|..];
      && Consistent(none, cur.index) && Nodes(none, cur) == []
      && DataSizes(none, cur.index) == 0 && NameSizes(none, cur.index) == 0 && Count(none, cur.index) == 0
  {
  }

  /** Pass two's cursors into the block: the next record, and the free parts of the data and name areas. */
  class Packer {
    const recs: array<Rec>
    const bytes: array<byte>
    const area: nat       // the address of bytes[0]
    const dcnt: nat       // where the names start
    var ift: nat
    var data: nat
    var names: nat
    var idx: nat
    var cif: nat

    ghost var made: seq<Rec>     // recs[..ift]
    ghost var nodes: seq<Node>   // the nodes they stand for

    ghost predicate Valid(cur: Current)
      reads this, recs, bytes
    {
      && ift < recs.Length && recs[..ift] == made
      && names <= bytes.Length
      && Filled(made, bytes[..], data, dcnt, names)
      && nodes == Views(made, bytes[..])
      && (forall i :: ift <= i < recs.Length ==> recs[i] == BLANK)
      && idx == cur.index
      && (idx != 0 ==> cif < ift && nodes[cif].name == cur.name && nodes[cif].flags == cur.flags)
      && SharesNames(made)
      && (idx != 0 ==> made[cif].name == made[ift - 1].name)
      && AlignedData(made, area)
    }

    constructor (icnt: nat, dcnt: nat, ncnt: nat, area: nat)
      requires icnt > 0
      ensures Valid(NOBODY) && ift == 0 && data == 0 && names == dcnt && nodes == []
      ensures this.dcnt == dcnt && this.area == area && recs.Length == icnt && bytes.Length == dcnt + ncnt
      ensures fresh(recs) && fresh(bytes)
    {
      recs := new Rec[icnt](i => BLANK);
      bytes := new byte[dcnt + ncnt](i => 0);
      this.area, this.dcnt := area, dcnt;
      ift, data, names, idx, cif := 0, 0, dcnt, 0, 0;
      made, nodes := [], [];
    }

    /** Copies one sockaddr to the data area and leads the record's pointer of its kind to it. */
    method PutSockaddr(i: nat, src: seq<byte>, ghost lo: nat, ghost all: seq<Sockaddr>, ghost rest: seq<Sockaddr>,
      ghost alen: nat)
      requires ift < recs.Length && lo <= data && data + |src| <= dcnt <= names <= bytes.Length
      requires i in RTA_MASKS && rest != [] && rest[0].kind == i && src == Content(rest[0], alen)
      requires Partial(recs[ift], bytes[..], lo, data, all, rest, i, alen)
      modifies this`data, recs, bytes
      ensures data == old(data) + |src|
      ensures recs[..] == old(recs[..])[ift := recs[ift]]
      ensures recs[ift].name == old(recs[ift].name) && recs[ift].flags == old(recs[ift].flags)
      ensures Same(old(bytes[..]), bytes[..], lo, dcnt, names)
      ensures Partial(recs[ift], bytes[..], lo, data, all, rest[1..], i + 1, alen)
    {
      hide Partial, Content, Zero, Splice;
      ghost var r, b, d := recs[ift], bytes[..], data;
      recs[ift] := SetField(recs[ift], i, Region(data, |src|));
      Memcpy(bytes, data, src);
      Spliced(b, data, src);
      SpliceKeeps(b, data, src, 0, data);
      SpliceKeeps(b, data, src, 0, lo);
      SpliceKeeps(b, data, src, dcnt, names);
      data := data + |src|;
      Copied(r, b, bytes[..], lo, d, all, rest, i, alen);
    }

    /** One turn of the copying loop. */
    method CopyNext(i: nat, p: nat, addrs: set<nat>, body: seq<byte>, alen: nat, ghost lo: nat,
      ghost all: seq<Sockaddr>) returns (p': nat)
      requires i < RTAX_MAX && Packed(addrs, body, i, p)
      requires ift < recs.Length
      requires data + TotalSize(Sockaddrs(addrs, body, i, p), alen) <= dcnt <= names <= bytes.Length
      requires lo <= data && Partial(recs[ift], bytes[..], lo, data, all, Sockaddrs(addrs, body, i, p), i, alen)
      modifies this`data, recs, bytes
      ensures Packed(addrs, body, i + 1, p')
      ensures lo <= data
      ensures data + TotalSize(Sockaddrs(addrs, body, i + 1, p'), alen)
           == old(data) + TotalSize(Sockaddrs(addrs, body, i, p), alen)
      ensures recs[..] == old(recs[..])[ift := recs[ift]]
      ensures recs[ift].name == old(recs[ift].name) && recs[ift].flags == old(recs[ift].flags)
      ensures Same(old(bytes[..]), bytes[..], lo, dcnt, names)
      ensures Partial(recs[ift], bytes[..], lo, data, all, Sockaddrs(addrs, body, i + 1, p'), i + 1, alen)
    {
      hide Partial, Rlen, Pick;
      if Selected(addrs, i) {
        SockaddrsStep(addrs, body, i, p);
        ghost var rest := Sockaddrs(addrs, body, i, p);
        var len := Rlen(body[p]);
        if i == RTAX_NETMASK && body[p] == 0 {
          PutSockaddr(i, Zeros(alen), lo, all, rest, alen);
        } else {
          PutSockaddr(i, body[p..p + len], lo, all, rest, alen);
        }
        p' := p + len;
      } else {
        Skipped(recs[ift], bytes[..], lo, data, all, addrs, body, i, p, alen);
        p' := p;
      }
    }

    /** The sockaddrs of an address message, each copied behind the record's pointer of its kind. */
    method CopySockaddrs(addrs: set<nat>, body: seq<byte>, alen: nat, ghost all: seq<Sockaddr>)
      requires Packed(addrs, body, 0, 0) && all == Sockaddrs(addrs, body, 0, 0)
      requires ift < recs.Length && data <= dcnt <= names <= bytes.Length
      requires data + TotalSize(all, alen) <= dcnt
      requires recs[ift] == BLANK.(name := recs[ift].name, flags := recs[ift].flags)
      modifies this`data, recs, bytes
      ensures data == old(data) + TotalSize(all, alen)
      ensures recs[..] == old(recs[..])[ift := recs[ift]]
      ensures recs[ift].name == old(recs[ift].name) && recs[ift].flags == old(recs[ift].flags)
      ensures Same(old(bytes[..]), bytes[..], old(data), dcnt, names)
      ensures Partial(recs[ift], bytes[..], old(data), data, all, [], RTAX_MAX, alen)
    {
      var p: nat := 0;
      ghost var lo := data;
      for i := 0 to RTAX_MAX
        invariant Packed(addrs, body, i, p)
        invariant lo <= data
        invariant data + TotalSize(Sockaddrs(addrs, body, i, p), alen) == lo + TotalSize(all, alen)
        invariant recs[..] == old(recs[..])[ift := recs[ift]]
        invariant recs[ift].name == old(recs[ift].name) && recs[ift].flags == old(recs[ift].flags)
        invariant Same(old(bytes[..]), bytes[..], lo, dcnt, names)
        invariant Partial(recs[ift], bytes[..], lo, data, all, Sockaddrs(addrs, body, i, p), i, alen)
      {
        p := CopyNext(i, p, addrs, body, alen, lo, all);
      }
    }

    /** `cur` is the interface at `cif`. */
    ghost predicate Follows(cur: Current)
      reads this
    {
      cur.index == idx && (idx != 0 ==> cif < |nodes| && nodes[cif].name == cur.name && nodes[cif].flags == cur.flags)
    }

    /** `ift = (ift->ifa_next = ift + 1)`, once the record is complete. */
    method Advance(ghost b: seq<byte>, ghost lo: nat, ghost lower: nat, ghost node: Node)
      requires ift + 1 < recs.Length && recs[..ift] == made && forall i :: ift < i < recs.Length ==> recs[i] == BLANK
      requires Filled(made, b, lo, dcnt, lower) && nodes == Views(made, b) && Same(b, bytes[..], lo, dcnt, lower)
      requires lo <= data <= dcnt && lower <= names <= bytes.Length
      requires var r := recs[ift].(next := Some(ift + 1));
        && Made(r, ift, bytes[..], data, dcnt, names) && View(r, bytes[..]) == node
        && Ordered(DataRegions(r), lo, data) && Ordered(NameRegions(r), lower, names)
      requires SharesNames(made) && (recs[ift].data == None ==> ift > 0 && recs[ift].name == made[ift - 1].name)
      requires idx != 0 ==> cif <= ift && recs[cif].name == recs[ift].name
      requires AlignedData(made, area) && AlignedData([recs[ift]], area)
      modifies this`ift, this`made, this`nodes, recs
      ensures ift == old(ift) + 1 && nodes == old(nodes) + [node]
      ensures forall cur: Current :: Follows(cur) ==> Valid(cur)
    {
      hide Made, Filled, Same, Ordered, DataRegions, NameRegions, Terminated, Views, View, AlignedData;
      AlignedMore(made, recs[ift], recs[ift].(next := Some(ift + 1)), area);
      recs[ift] := recs[ift].(next := Some(ift + 1));
      ghost var r := recs[ift];
      FillOne(made, r, b, bytes[..], lo, data, dcnt, lower, names);
      ift := ift + 1;
      made, nodes := made + [r], nodes + [node];
    }

    /** Name, flags and sockaddrs of an address of the interface at `cif`. */
    method FillAddress(m: Msg, ghost cur: Current)
      requires WellFormed(m) && m.NewAddr? && Makes(m, cur.index)
      requires cif < ift < recs.Length && recs[ift] == BLANK
      requires Fits(recs[cif], data, dcnt, names) && Readable(recs[cif], bytes.Length)
      requires Terminated(recs[cif], bytes[..])
      requires View(recs[cif], bytes[..]).name == cur.name && recs[cif].flags == cur.flags
      requires data + DataSize(m, cur.index) <= dcnt <= names <= bytes.Length
      modifies this`data, recs, bytes
      ensures data == old(data) + DataSize(m, cur.index)
      ensures recs[..] == old(recs[..])[ift := recs[ift]]
      ensures recs[ift].name == recs[cif].name && recs[ift].data == None
      ensures var r := recs[ift].(next := Some(ift + 1));
        && Made(r, ift, bytes[..], data, dcnt, names) && View(r, bytes[..]) == MakeNode(m, cur)
        && Ordered(DataRegions(r), old(data), data) && Ordered(NameRegions(r), names, names)
      ensures Same(old(bytes[..]), bytes[..], old(data), dcnt, names)
    {
      hide Ordered, Terminated, Pick, TotalSize, Sockaddrs, Packed, DataRegions, NameRegions, AllData, AllNames,
        Alen, Read, Made, Fits, Readable;
      ghost var b, lo, own := bytes[..], data, recs[cif];
      ghost var sas := Sockaddrs(m.addrs, m.body, 0, 0);
      recs[ift] := recs[ift].(name := recs[cif].name, flags := recs[cif].flags, data := None);
      var alen := ScanAlen(m.addrs, m.body);
      CopySockaddrs(m.addrs, m.body, alen, sas);
      AddressDone(recs[ift], own, ift, b, bytes[..], lo, data, dcnt, names, m, cur);
    }

    /** The record at `cif` is that of the current interface. */
    lemma OwnRecord(cur: Current)
      requires Valid(cur) && cur.index != 0
      ensures data <= dcnt <= names <= bytes.Length
      ensures cif < ift && Fits(recs[cif], data, dcnt, names) && Readable(recs[cif], bytes.Length)
      ensures Terminated(recs[cif], bytes[..])
      ensures View(recs[cif], bytes[..]).name == cur.name && recs[cif].flags == cur.flags
    {
      assert Made(made[cif], cif, bytes[..], data, dcnt, names);
    }

    method AddAddress(m: Msg, ghost cur: Current)
      requires Valid(cur) && WellFormed(m) && m.NewAddr? && Makes(m, cur.index)
      requires data + DataSize(m, cur.index) <= dcnt && ift + 1 < recs.Length
      modifies this`data, this`ift, this`made, this`nodes, recs, bytes
      ensures Valid(cur) && ift == old(ift) + 1 && data == old(data) + DataSize(m, cur.index)
      ensures nodes == old(nodes) + [MakeNode(m, cur)]
    {
      hide Filled, Made, Fits, Readable, Terminated, Partial, TotalSize, Sockaddrs, Packed, DataRegions, NameRegions,
        Ordered, Alen, Views, View, Read, Same, AlignedData;
      OwnRecord(cur);
      ghost var b, lo := bytes[..], data;
      FillAddress(m, cur);
      NoData(recs[ift], area);
      Advance(b, lo, names, MakeNode(m, cur));
    }

    method CopyName(m: Msg)
      requires WellFormed(m) && m.IfInfo? && m.hasIfp
      requires ift < recs.Length && data <= dcnt <= names && names + Nlen(m.sdl) + 1 <= bytes.Length
      modifies this`names, recs, bytes
      ensures names == old(names) + Nlen(m.sdl) + 1
      ensures recs[..] == old(recs[..])[ift := old(recs[ift]).(name := recs[ift].name, flags := recs[ift].flags)]
      ensures NameOk(recs[ift], bytes[..], old(names), names, m)
      ensures Same(old(bytes[..]), bytes[..], data, dcnt, old(names))
    {
      hide Name, Splice, NameOk;
      ghost var b := bytes[..];
      recs[ift] := recs[ift].(name := Region(names, Nlen(m.sdl) + 1), flags := m.flags);
      Memcpy(bytes, names, Name(m));
      Memcpy(bytes, names + Nlen(m.sdl), [0]);
      NameWritten(recs[ift], b, names, data, dcnt, m);
      names := names + Nlen(m.sdl) + 1;
    }

    /** The link-level address and, aligned, the statistics. */
    method CopyLink(m: Msg)
      requires WellFormed(m) && m.IfInfo? && m.hasIfp
      requires ift < recs.Length && data + DataSize(m, 0) <= dcnt <= names <= bytes.Length
      modifies this`data, recs, bytes
      ensures data <= old(data) + DataSize(m, 0)
      ensures recs[..] == old(recs[..])[ift := old(recs[ift]).(addr := recs[ift].addr, data := recs[ift].data)]
      ensures LinkOk(recs[ift], bytes[..], old(data), data, m)
      ensures Multiple(area + recs[ift].data.value.off, ALIGN_UNIT) && AlignedData([recs[ift]], area)
      ensures Same(old(bytes[..]), bytes[..], old(data), dcnt, names)
    {
      hide RoundUp, Rlen, Multiple, Splice, LinkOk;
      RlenBound(m.sdl[0]);
      ghost var b, lo := bytes[..], data;
      recs[ift] := recs[ift].(addr := Some(Region(data, m.sdl[0] as nat)));
      Memcpy(bytes, data, m.sdl[..m.sdl[0] as nat]);
      data := data + Rlen(m.sdl[0]);

      data := RoundUp(area + data, ALIGN_UNIT) - area;
      recs[ift] := recs[ift].(data := Some(Region(data, SIZEOF_IF_DATA)));
      Memcpy(bytes, data, m.data);
      LinkWritten(recs[ift], b, lo, data, dcnt, names, m);
      data := data + SIZEOF_IF_DATA;
    }

    /** The name, flags, link-level address and statistics of an interface. */
    method FillInterface(m: Msg, ghost cur: Current)
      requires WellFormed(m) && m.IfInfo? && m.hasIfp
      requires ift < recs.Length && recs[ift].netmask == None && recs[ift].broadaddr == None
      requires ift < recs.Length && data + DataSize(m, 0) <= dcnt <= names && names + NameSize(m, 0) <= bytes.Length
      modifies this`data, this`names, recs, bytes
      ensures old(data) <= data <= old(data) + DataSize(m, 0) && names == old(names) + NameSize(m, 0)
      ensures recs[..] == old(recs[..])[ift := recs[ift]]
      ensures var r := recs[ift].(next := Some(ift + 1));
        && Made(r, ift, bytes[..], data, dcnt, names) && View(r, bytes[..]) == MakeNode(m, cur)
        && Ordered(DataRegions(r), old(data), data) && Ordered(NameRegions(r), old(names), names)
      ensures recs[ift].data.Some? && AlignedData([recs[ift]], area)
      ensures Same(old(bytes[..]), bytes[..], old(data), dcnt, old(names))
    {
      hide NameOk, LinkOk, Same, Rlen, AlignedData, Multiple, Made, Ordered, DataRegions, NameRegions, MakeNode;
      ghost var b0, lo, lower := bytes[..], data, names;
      CopyName(m);
      ghost var b1, r := bytes[..], recs[ift];
      CopyLink(m);
      NameKept(r, recs[ift], b0, b1, bytes[..], lo, dcnt, lower, names, m);
      InterfaceDone(recs[ift], ift, bytes[..], lo, data, dcnt, lower, names, m, cur);
      LinkData(recs[ift], bytes[..], lo, data, m);
    }

    lemma LinkData(r: Rec, b: seq<byte>, lo: nat, data: nat, m: Msg)
      requires WellFormed(m) && m.IfInfo? && m.hasIfp && LinkOk(r, b, lo, data, m)
      ensures r.data.Some? && lo <= data
    {
    }

    method AddInterface(m: Msg, ghost cur: Current)
      requires Valid(cur) && WellFormed(m) && m.IfInfo? && m.hasIfp
      requires data + DataSize(m, cur.index) <= dcnt && names + NameSize(m, cur.index) <= bytes.Length &&
        ift + 1 < recs.Length
      modifies this, recs, bytes
      ensures Valid(Next(m, cur)) && ift == old(ift) + 1
      ensures data <= old(data) + DataSize(m, cur.index) && names == old(names) + NameSize(m, cur.index)
      ensures nodes == old(nodes) + [MakeNode(m, cur)]
    {
      hide Ordered, Terminated, Made, AllData, AllNames, View, Views, NameOk, LinkOk, Same, Rlen, AlignedData;
      ghost var b0, lo, lower := bytes[..], data, names;
      idx, cif := m.index, ift;
      FillInterface(m, cur);
      Advance(b0, lo, lower, MakeNode(m, cur));
    }

    /** One message in pass two. */
    method AddMessage(m: Msg, ghost cur: Current) returns (ok: bool)
      requires Valid(cur) && WellFormed(m)
      requires data + DataSize(m, idx) <= dcnt && names + NameSize(m, idx) <= bytes.Length
      requires Makes(m, idx) ==> ift + 1 < recs.Length
      modifies this, recs, bytes
      ensures ok <==> !Mismatch(m, cur.index)
      ensures ok ==> Valid(Next(m, cur)) && ift == old(ift) + (if Makes(m, cur.index) then 1 else 0)
      ensures ok ==> data <= old(data) + DataSize(m, cur.index) && names == old(names) + NameSize(m, cur.index)
      ensures ok ==> nodes == old(nodes) + (if Makes(m, cur.index) then [MakeNode(m, cur)] else [])
    {
      hide Filled, Views, MakeNode, DataSize, SharesNames;
      match m {
        case IfInfo(hasIfp, _, _, _, _) =>
          if hasIfp {
            AddInterface(m, cur);
          } else {
            idx := 0;
          }
        case NewAddr(index, addrs, _) =>
          if idx != 0 && index != idx {
            return false;
          }
          if idx != 0 && addrs * RTA_MASKS != {} {
            AddAddress(m, cur);
          }
        case Other =>
      }
      ok := true;
    }

    lemma IndexIs(cur: Current)
      requires Valid(cur)
      ensures idx == cur.index
    {
    }

    /** Pass two: it never meets the inconsistency that pass one has excluded. */
    method PassTwo(msgs: seq<Msg>) returns (ok: bool, ghost cur: Current)
      requires Valid(NOBODY) && nodes == [] && AllWellFormed(msgs)
      requires recs.Length == ift + Count(msgs, 0) + 1
      requires data + DataSizes(msgs, 0) <= dcnt && names + NameSizes(msgs, 0) == bytes.Length
      modifies this, recs, bytes
      ensures ok <==> Consistent(msgs, 0)
      ensures ok ==> Valid(cur)
      ensures ok ==> nodes == Nodes(msgs, NOBODY) && ift + 1 == recs.Length && names == bytes.Length
    {
      hide Filled, Views, MakeNode, DataSize, NameSize, SharesNames, Makes, Mismatch, Valid, AlignedData;
      hide Consistent, Nodes, DataSizes, NameSizes, Count, WellFormed, Next, NextIndex;
      cur := NOBODY;
      IndexIs(cur);
      assert msgs[0..] == msgs;
      for k := 0 to |msgs|
        invariant Valid(cur) && idx == cur.index && (Consistent(msgs, 0) <==> Consistent(msgs[k..], idx))
        invariant nodes + Nodes(msgs[k..], cur) == Nodes(msgs, NOBODY)
        invariant data + DataSizes(msgs[k..], idx) <= dcnt
        invariant names + NameSizes(msgs[k..], idx) == bytes.Length
        invariant recs.Length == ift + Count(msgs[k..], idx) + 1
      {
        OneMessage(msgs, k, cur);
        ok := AddMessage(msgs[k], cur);
        if !ok { return; }
        cur := Next(msgs[k], cur);
        IndexIs(cur);
      }
      NoMessage(msgs, cur);
      ok := true;
    }
  }

  datatype Status = Done | Invalid | NoMemory

  lemma NothingCounted(msgs: seq<Msg>, index: nat)
    requires AllWellFormed(msgs)
    ensures Count(msgs, index) == 0 ==> DataSizes(msgs, index) == 0 && NameSizes(msgs, index) == 0
  {
    if msgs != [] {
      NothingCounted(msgs[1..], NextIndex(msgs[0], index));
    }
  }

  /**
    getifaddrs on the message buffer it got; `block` is the address malloc gives the block, whose bytes follow the
    records, and `exhausted` makes the allocation fail.
  */
  method GetIfAddrs(msgs: seq<Msg>, block: nat, exhausted: bool) returns (status: Status, list: Packer?)
    requires AllWellFormed(msgs)
    ensures status.Invalid? <==> !Consistent(msgs, 0)
    ensures status.NoMemory? <==> Consistent(msgs, 0) && Nodes(msgs, NOBODY) != [] && exhausted
    ensures list == null <==> !status.Done? || Nodes(msgs, NOBODY) == []
    ensures list != null ==> fresh(list) && fresh(list.recs)
    ensures list != null ==> list.area == block + Times(list.recs.Length, SIZEOF_IFADDRS)
    ensures list != null ==> list.recs.Length == 1 + Count(msgs, 0)
    ensures list != null ==> AlignedData(list.recs[..list.recs.Length - 1], list.area)
    ensures list != null ==> list.bytes.Length == DataSizes(msgs, 0) + NameSizes(msgs, 0)
    ensures list != null ==> IsList(list.recs[..list.recs.Length - 1], list.bytes[..], list.dcnt, Nodes(msgs, NOBODY))
  {
    hide IsList, Filled, Views, SharesNames, AlignedData, Times, Consistent, Nodes, DataSizes, NameSizes, Count;
    CountIsLength(msgs, NOBODY);
    NothingCounted(msgs, 0);
    var ok, icnt, dcnt, ncnt := PassOne(msgs);
    if !ok { return Invalid, null; }
    if icnt + dcnt + ncnt == 1 { return Done, null; }
    if exhausted { return NoMemory, null; }
    var pk := new Packer(icnt, dcnt, ncnt, block + Times(icnt, SIZEOF_IFADDRS));
    ghost var cur;
    ok, cur := pk.PassTwo(msgs);
    if !ok { assert false; }            // EINVAL in pass two "cannot happen"
    if pk.ift == 0 { assert false; }    // nor can the list be empty here
    var last := pk.ift - 1;
    Finish(pk.made, pk.bytes[..], pk.data, pk.dcnt, pk.nodes);
    AlignedToEnd(pk.made, last, pk.area);
    pk.recs[last] := pk.recs[last].(next := None);
    return Done, pk;
  }
}
