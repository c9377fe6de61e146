/** Regions of the block that getifaddrs allocates, and the list nodes whose pointers lead into it. */
module IfAddrsLayout {
  import opened Memory
  import opened IfAddrs

  /** `len` bytes at offset `off` from the end of the record array: what a pointer leads to. */
  datatype Region = Region(off: nat, len: nat)

  /** struct ifaddrs, with the extent that was filled behind each pointer and `next` as a record index. */
  datatype Rec = Rec(name: Region, flags: int, addr: Option<Region>, netmask: Option<Region>,
                     broadaddr: Option<Region>, data: Option<Region>, next: Option<nat>)

  const BLANK := Rec(Region(0, 0), 0, None, None, None, None, None)

  predicate Inside(r: Region, lo: nat, hi: nat) { lo <= r.off && r.off + r.len <= hi }

  predicate AllInside(rs: seq<Region>, lo: nat, hi: nat) { forall i :: 0 <= i < |rs| ==> Inside(rs[i], lo, hi) }

  function List(p: Option<Region>): seq<Region> { if p.Some? then [p.value] else [] }

  /** The regions of a record in the data area, in the order they are filled. */
  function DataRegions(r: Rec): seq<Region> { List(r.netmask) + List(r.addr) + List(r.broadaddr) + List(r.data) }

  /** An interface's record has data and its own name; an address shares the name of its interface. */
  function NameRegions(r: Rec): seq<Region> { if r.data.Some? then [r.name] else [] }

  function AllData(rs: seq<Rec>): seq<Region> {
    if rs == [] then [] else AllData(rs[..|rs| - 1]) + DataRegions(rs[|rs| - 1])
  }

  function AllNames(rs: seq<Rec>): seq<Region> {
    if rs == [] then [] else AllNames(rs[..|rs| - 1]) + NameRegions(rs[|rs| - 1])
  }

  /** The regions follow one another between lo and hi. */
  predicate Ordered(rs: seq<Region>, lo: nat, hi: nat) {
    if rs == [] then lo <= hi else lo <= rs[0].off && Ordered(rs[1..], rs[0].off + rs[0].len, hi)
  }

  lemma {:induction false} OrderedAppend(a: seq<Region>, b: seq<Region>, lo: nat, mid: nat, hi: nat)
    requires Ordered(a, lo, mid) && Ordered(b, mid, hi)
    ensures Ordered(a + b, lo, hi)
  {
    if a == [] {
      assert a + b == b;
      OrderedFrom(b, mid, lo, hi);
    } else {
      OrderedAppend(a[1..], b, a[0].off + a[0].len, mid, hi);
      assert (a + b)[1..] == a[1..] + b;
    }
  }

  lemma OrderedFrom(a: seq<Region>, lo: nat, lower: nat, hi: nat)
    requires Ordered(a, lo, hi) && lower <= lo
    ensures Ordered(a, lower, hi) && lo <= hi
  {
  }

  lemma {:induction false} OrderedTo(a: seq<Region>, lo: nat, hi: nat, higher: nat)
    requires Ordered(a, lo, hi) && hi <= higher
    ensures Ordered(a, lo, higher)
  {
    if a != [] {
      OrderedTo(a[1..], a[0].off + a[0].len, hi, higher);
    }
  }

  /** Regions that follow one another lie inside the area and do not overlap. */
  lemma {:induction false} OrderedDisjoint(rs: seq<Region>, lo: nat, hi: nat)
    requires Ordered(rs, lo, hi)
    ensures AllInside(rs, lo, hi)
    ensures forall i, j :: 0 <= i < j < |rs| ==> rs[i].off + rs[i].len <= rs[j].off
  {
    if rs != [] {
      OrderedDisjoint(rs[1..], rs[0].off + rs[0].len, hi);
      forall j | 0 < j < |rs| ensures rs[0].off + rs[0].len <= rs[j].off {
        assert rs[j] == rs[1..][j - 1];
      }
      OrderedFrom(rs, lo, lo, hi);
      forall i | 0 <= i < |rs| ensures Inside(rs[i], lo, hi) {
        if i > 0 { assert rs[i] == rs[1..][i - 1]; } else { OrderedFrom(rs[1..], rs[0].off + rs[0].len, 0, hi); }
      }
      forall i, j | 0 <= i < j < |rs| ensures rs[i].off + rs[i].len <= rs[j].off {
        if i > 0 { assert rs[i] == rs[1..][i - 1] && rs[j] == rs[1..][j - 1]; }
      }
    }
  }

  // Reading the list back through its pointers.

  predicate Fits(r: Rec, data: nat, namesLo: nat, names: nat) {
    && AllInside(DataRegions(r), 0, data)
    && Inside(r.name, namesLo, names) && r.name.len > 0
  }

  function Read(p: Option<Region>, b: seq<byte>): Option<seq<byte>>
    requires p.Some? ==> Inside(p.value, 0, |b|)
  {
    if p.Some? then Some(b[p.value.off..p.value.off + p.value.len]) else None
  }

  predicate Readable(r: Rec, n: nat) {
    && (r.addr.Some? ==> Inside(r.addr.value, 0, n))
    && (r.netmask.Some? ==> Inside(r.netmask.value, 0, n))
    && (r.broadaddr.Some? ==> Inside(r.broadaddr.value, 0, n))
    && (r.data.Some? ==> Inside(r.data.value, 0, n))
    && Inside(r.name, 0, n) && r.name.len > 0
  }

  lemma FitsReadable(r: Rec, data: nat, namesLo: nat, names: nat)
    requires Fits(r, data, namesLo, names) && data <= namesLo <= names
    ensures Readable(r, names)
    ensures r.addr.Some? ==> Inside(r.addr.value, 0, data)
    ensures r.netmask.Some? ==> Inside(r.netmask.value, 0, data)
    ensures r.broadaddr.Some? ==> Inside(r.broadaddr.value, 0, data)
    ensures r.data.Some? ==> Inside(r.data.value, 0, data)
  {
    var rs := DataRegions(r);
    assert r.netmask.Some? ==> rs[0] == r.netmask.value;
    assert r.addr.Some? ==> rs[|List(r.netmask)|] == r.addr.value;
    assert r.broadaddr.Some? ==> rs[|List(r.netmask)| + |List(r.addr)|] == r.broadaddr.value;
    assert r.data.Some? ==> rs[|rs| - 1] == r.data.value;
  }

  /** The node a record stands for; its name ends with a NUL in the block. */
  function View(r: Rec, b: seq<byte>): Node
    requires Readable(r, |b|)
  {
    Node(b[r.name.off..r.name.off + r.name.len - 1], r.flags,
         Read(r.addr, b), Read(r.netmask, b), Read(r.broadaddr, b), Read(r.data, b))
  }

  predicate Terminated(r: Rec, b: seq<byte>)
    requires Readable(r, |b|)
  {
    b[r.name.off + r.name.len - 1] == 0
  }

  /** `b'` has the same bytes as `b` in everything handed out so far. */
  predicate Same(b: seq<byte>, b': seq<byte>, data: nat, namesLo: nat, names: nat) {
    && |b| == |b'| && data <= namesLo <= names <= |b|
    && b[..data] == b'[..data]
    && b[namesLo..names] == b'[namesLo..names]
  }

  lemma SameSlice(b: seq<byte>, b': seq<byte>, lo: nat, hi: nat, r: Region)
    requires lo <= hi <= |b| == |b'| && b[lo..hi] == b'[lo..hi] && Inside(r, lo, hi)
    ensures b[r.off..r.off + r.len] == b'[r.off..r.off + r.len]
  {
    forall i | r.off <= i < r.off + r.len ensures b[i] == b'[i] {
      assert b[i] == b[lo..hi][i - lo];
      assert b'[i] == b'[lo..hi][i - lo];
    }
  }

  lemma ReadFrame(p: Option<Region>, b: seq<byte>, b': seq<byte>, hi: nat)
    requires hi <= |b| == |b'| && b[..hi] == b'[..hi] && (p.Some? ==> Inside(p.value, 0, hi))
    ensures Read(p, b) == Read(p, b')
  {
    if p.Some? {
      assert b[0..hi] == b[..hi] && b'[0..hi] == b'[..hi];
      SameSlice(b, b', 0, hi, p.value);
    }
  }

  /** Filling free space does not change a node already made. */
  lemma ViewFrame(r: Rec, b: seq<byte>, b': seq<byte>, data: nat, namesLo: nat, names: nat)
    requires Same(b, b', data, namesLo, names) && Fits(r, data, namesLo, names)
    ensures Readable(r, |b|) && View(r, b) == View(r, b') && Terminated(r, b) == Terminated(r, b')
  {
    FitsReadable(r, data, namesLo, names);
    hide Read;
    ReadFrame(r.addr, b, b', data);
    ReadFrame(r.netmask, b, b', data);
    ReadFrame(r.broadaddr, b, b', data);
    ReadFrame(r.data, b, b', data);
    SameSlice(b, b', namesLo, names, Region(r.name.off, r.name.len - 1));
    SameSlice(b, b', namesLo, names, Region(r.name.off + r.name.len - 1, 1));
    assert b[r.name.off + r.name.len - 1] == b[r.name.off + r.name.len - 1..r.name.off + r.name.len][0];
  }

  // All records so far.

  predicate Made(r: Rec, i: nat, b: seq<byte>, data: nat, namesLo: nat, names: nat) {
    && Fits(r, data, namesLo, names)
    && Readable(r, |b|)
    && Terminated(r, b)
    && r.next == Some(i + 1)
  }

  /** The records `rs` fill the data area up to `data` and the name area up to `names`. */
  predicate Filled(rs: seq<Rec>, b: seq<byte>, data: nat, namesLo: nat, names: nat) {
    && data <= namesLo <= names <= |b|
    && (forall i :: 0 <= i < |rs| ==> Made(rs[i], i, b, data, namesLo, names))
    && Ordered(AllData(rs), 0, data)
    && Ordered(AllNames(rs), namesLo, names)
  }

  /** A record without data has the very name pointer of the record before it, back to its interface. */
  predicate SharesNames(rs: seq<Rec>) {
    forall i :: 0 <= i < |rs| && rs[i].data == None ==> i > 0 && rs[i].name == rs[i - 1].name
  }

  function Views(rs: seq<Rec>, b: seq<byte>): (vs: seq<Node>)
    requires forall i :: 0 <= i < |rs| ==> Readable(rs[i], |b|)
    ensures |vs| == |rs| && forall i :: 0 <= i < |rs| ==> vs[i] == View(rs[i], b)
  {
    seq(|rs|, i requires 0 <= i < |rs| => View(rs[i], b))
  }

  lemma MadeFrame(r: Rec, i: nat, b: seq<byte>, b': seq<byte>, data: nat, data': nat, namesLo: nat, names: nat,
    names': nat)
    requires Made(r, i, b, data, namesLo, names) && Same(b, b', data, namesLo, names)
    requires data <= data' && names <= names' <= |b'|
    ensures Made(r, i, b', data', namesLo, names') && View(r, b') == View(r, b)
  {
    ViewFrame(r, b, b', data, namesLo, names);
  }

  lemma AllMadeFrame(rs: seq<Rec>, b: seq<byte>, b': seq<byte>, data: nat, data': nat, namesLo: nat, names: nat,
    names': nat)
    requires Filled(rs, b, data, namesLo, names) && Same(b, b', data, namesLo, names)
    requires data <= data' && names <= names' <= |b'|
    ensures forall i :: 0 <= i < |rs| ==>
      Made(rs[i], i, b', data', namesLo, names') && View(rs[i], b') == View(rs[i], b)
  {
    forall i | 0 <= i < |rs| ensures Made(rs[i], i, b', data', namesLo, names') && View(rs[i], b') == View(rs[i], b) {
      MadeFrame(rs[i], i, b, b', data, data', namesLo, names, names');
    }
  }

  /** One more record, in space that was free, leaves the nodes before it as they were. */
  lemma FillOne(rs: seq<Rec>, r: Rec, b: seq<byte>, b': seq<byte>, data: nat, data': nat, namesLo: nat, names: nat,
    names': nat)
    requires Filled(rs, b, data, namesLo, names) && Same(b, b', data, namesLo, names)
    requires data <= data' <= namesLo && names <= names' <= |b'|
    requires Made(r, |rs|, b', data', namesLo, names')
    requires Ordered(DataRegions(r), data, data') && Ordered(NameRegions(r), names, names')
    ensures Filled(rs + [r], b', data', namesLo, names')
    ensures Views(rs + [r], b') == Views(rs, b) + [View(r, b')]
  {
    hide DataRegions, NameRegions, Terminated, View, Fits, Readable, Ordered, Same;
    var rs' := rs + [r];
    AllMadeFrame(rs, b, b', data, data', namesLo, names, names');
    assert rs'[..|rs'| - 1] == rs;
    OrderedAppend(AllData(rs), DataRegions(r), 0, data, data');
    OrderedAppend(AllNames(rs), NameRegions(r), namesLo, names, names');
  }

  /** No two of the regions handed out overlap, and all lie in the block behind the record array. */
  lemma RegionsDisjoint(rs: seq<Rec>, namesLo: nat, end: nat)
    requires Ordered(AllData(rs), 0, namesLo) && Ordered(AllNames(rs), namesLo, end)
    ensures var all := AllData(rs) + AllNames(rs);
      && AllInside(all, 0, end)
      && forall i, j :: 0 <= i < j < |all| ==> all[i].off + all[i].len <= all[j].off
  {
    OrderedAppend(AllData(rs), AllNames(rs), 0, namesLo, end);
    OrderedDisjoint(AllData(rs) + AllNames(rs), 0, end);
  }

  /** Every data pointer is aligned; `area` is the address of the bytes behind the records. */
  ghost predicate AlignedData(rs: seq<Rec>, area: nat) {
    forall i :: 0 <= i < |rs| && rs[i].data.Some? ==> Multiple(area + rs[i].data.value.off, ALIGN_UNIT)
  }

  lemma AlignedMore(rs: seq<Rec>, own: Rec, r: Rec, area: nat)
    requires AlignedData(rs, area) && AlignedData([own], area) && r.data == own.data
    ensures AlignedData(rs + [r], area)
  {
    assert [own][0] == own;
  }

  lemma NoData(r: Rec, area: nat)
    requires r.data == None
    ensures AlignedData([r], area)
  {
  }

  lemma AlignedToEnd(rs: seq<Rec>, last: nat, area: nat)
    requires AlignedData(rs, area) && last < |rs|
    ensures AlignedData(rs[last := rs[last].(next := None)], area)
  {
  }

  // The whole block: n records, and then the bytes.

  function Records(n: nat): seq<Region> {
    if n == 0 then [] else Records(n - 1) + [Region(Times(n - 1, SIZEOF_IFADDRS), SIZEOF_IFADDRS)]
  }

  function Behind(rs: seq<Region>, start: nat): (r: seq<Region>)
    ensures |r| == |rs| && forall i :: 0 <= i < |rs| ==> r[i] == Region(start + rs[i].off, rs[i].len)
  {
    seq(|rs|, i requires 0 <= i < |rs| => Region(start + rs[i].off, rs[i].len))
  }

  lemma {:induction false} RecordsOrdered(n: nat)
    ensures |Records(n)| == n && Ordered(Records(n), 0, Times(n, SIZEOF_IFADDRS))
  {
    if n > 0 {
      RecordsOrdered(n - 1);
      var start := Times(n - 1, SIZEOF_IFADDRS);
      assert Times(n, SIZEOF_IFADDRS) == start + SIZEOF_IFADDRS;
      OrderedAppend(Records(n - 1), [Region(start, SIZEOF_IFADDRS)], 0, start, start + SIZEOF_IFADDRS);
    }
  }

  lemma {:induction false} BehindOrdered(rs: seq<Region>, start: nat, lo: nat, hi: nat)
    requires Ordered(rs, lo, hi)
    ensures Ordered(Behind(rs, start), start + lo, start + hi)
  {
    if rs != [] {
      BehindOrdered(rs[1..], start, rs[0].off + rs[0].len, hi);
      assert Behind(rs, start)[1..] == Behind(rs[1..], start);
    }
  }

  /** The records and all pieces of the list lie in the one block that was allocated, and none overlaps another. */
  lemma BlockDisjoint(n: nat, rs: seq<Rec>, namesLo: nat, end: nat)
    requires Ordered(AllData(rs), 0, namesLo) && Ordered(AllNames(rs), namesLo, end)
    ensures var start := Times(n, SIZEOF_IFADDRS);
      var all := Records(n) + Behind(AllData(rs) + AllNames(rs), start);
      && AllInside(all, 0, start + end)
      && forall i, j :: 0 <= i < j < |all| ==> all[i].off + all[i].len <= all[j].off
  {
    hide AllData, AllNames, Ordered, Records, Behind, Times;
    var start := Times(n, SIZEOF_IFADDRS);
    var pieces := AllData(rs) + AllNames(rs);
    RecordsOrdered(n);
    OrderedAppend(AllData(rs), AllNames(rs), 0, namesLo, end);
    BehindOrdered(pieces, start, 0, end);
    OrderedAppend(Records(n), Behind(pieces, start), 0, start, start + end);
    OrderedDisjoint(Records(n) + Behind(pieces, start), 0, start + end);
  }

  /** The list at `rs`, in a block with the given bytes behind the records, is a NULL-terminated chain of `nodes`. */
  predicate IsList(rs: seq<Rec>, b: seq<byte>, namesLo: nat, nodes: seq<Node>) {
    && |rs| == |nodes|
    && (forall i :: 0 <= i < |rs| ==> rs[i].next == if i + 1 < |rs| then Some(i + 1) else None)
    && (forall i :: 0 <= i < |rs| ==> Readable(rs[i], |b|) && Terminated(rs[i], b) && View(rs[i], b) == nodes[i])
    && SharesNames(rs)
    && Ordered(AllData(rs), 0, namesLo)
    && Ordered(AllNames(rs), namesLo, |b|)
  }

  lemma LastRegions(rs: seq<Rec>, r: Rec)
    ensures AllData(rs + [r]) == AllData(rs) + DataRegions(r)
    ensures AllNames(rs + [r]) == AllNames(rs) + NameRegions(r)
  {
    assert (rs + [r])[..|rs|] == rs;
  }

  /** Ending the chain moves no region. */
  lemma EndKeepsRegions(rs: seq<Rec>)
    requires rs != []
    ensures var last := |rs| - 1; var rs' := rs[last := rs[last].(next := None)];
      AllData(rs') == AllData(rs) && AllNames(rs') == AllNames(rs)
  {
    hide AllData, AllNames;
    var last := |rs| - 1;
    LastRegions(rs[..last], rs[last]);
    LastRegions(rs[..last], rs[last].(next := None));
    assert rs == rs[..last] + [rs[last]];
    assert rs[last := rs[last].(next := None)] == rs[..last] + [rs[last].(next := None)];
  }

  lemma Finish(rs: seq<Rec>, b: seq<byte>, data: nat, namesLo: nat, nodes: seq<Node>)
    requires rs != [] && Filled(rs, b, data, namesLo, |b|) && nodes == Views(rs, b) && SharesNames(rs)
    ensures var last := |rs| - 1; IsList(rs[last := rs[last].(next := None)], b, namesLo, nodes)
  {
    hide AllData, AllNames, Ordered, DataRegions, Fits, Readable, Terminated, View;
    var last := |rs| - 1;
    var rs' := rs[last := rs[last].(next := None)];
    EndKeepsRegions(rs);
    OrderedTo(AllData(rs), 0, data, namesLo);
    forall i | 0 <= i < |rs| ensures Readable(rs'[i], |b|) && Terminated(rs'[i], b) && View(rs'[i], b) == nodes[i] {
      assert Made(rs[i], i, b, data, namesLo, |b|);
      NextIrrelevant(rs[i], b);
    }
  }

  /** Where `next` leads has nothing to do with the node. */
  lemma NextIrrelevant(r: Rec, b: seq<byte>)
    requires Readable(r, |b|)
    ensures var r' := r.(next := None);
      Readable(r', |b|) && View(r', b) == View(r, b) && (Terminated(r', b) <==> Terminated(r, b))
  {
  }
}
