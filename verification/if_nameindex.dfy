/** if_nameindex: two arrays that grow by realloc, names kept as offsets until the characters have their final place. */
module IfNameIndex {
  import opened Memory
  import opened CStrings

  type Addr = int

  /** The blocks that malloc has handed out for elements of one type. */
  class Heap<T(0)> {
    var blocks: map<Addr, seq<T>>
    var copied: nat               // elements that realloc has moved from one place to another so far
    var failures: nat             // times that realloc has failed

    constructor ()
      ensures blocks == map[] && copied == 0 && failures == 0
    {
      blocks := map[];
      copied := 0;
      failures := 0;
    }

    /** realloc: it fails, grows the block where it is, or moves it; None is the null pointer. */
    method Realloc(p: Option<Addr>, size: nat) returns (q: Option<Addr>)
      requires p.Some? ==> p.value in blocks && |blocks[p.value]| <= size
      modifies this
      ensures q == None ==> blocks == old(blocks) && copied == old(copied)
      ensures failures == old(failures) + if q == None then 1 else 0
      ensures q.Some? && p == q ==> copied == old(copied)
      ensures q.Some? && p != q ==> q.value !in old(blocks)
      ensures q.Some? && p != q ==> copied == old(copied) + if p.Some? then |old(blocks)[p.value]| else 0
      ensures q.Some? ==> q.value in blocks && |blocks[q.value]| == size
      ensures q.Some? ==>
        blocks == (if p.Some? then old(blocks) - {p.value} else old(blocks))[q.value := blocks[q.value]]
      ensures q.Some? && p.Some? ==> old(blocks)[p.value] <= blocks[q.value]
    {
      // Any address may be chosen; one that is in use stands for failure.
      var moves: bool, addr: Addr, junk: T := *, *, *;
      var keep := if p.Some? then blocks[p.value] else [];
      if p.Some? && !moves {
        addr := p.value;
      } else if addr in blocks {
        failures := failures + 1;
        return None;
      } else {
        copied := copied + |keep|;
      }
      blocks := (if p.Some? then blocks - {p.value} else blocks)[addr := keep + seq(size - |keep|, _ => junk)];
      q := Some(addr);
    }

    method Free(p: Option<Addr>)
      requires p.Some? ==> p.value in blocks
      modifies this`blocks
      ensures blocks == if p.Some? then old(blocks) - {p.value} else old(blocks)
    {
      if p.Some? { blocks := blocks - {p.value}; }
    }
  }

  /** A `char *`: (char *) NULL + n, or a place in a block. */
  datatype Ptr = FromNull(offset: nat) | Into(block: Addr, offset: nat)

  const NULL := FromNull(0)

  /** struct if_nameindex */
  datatype Entry = Entry(index: nat, name: Ptr)

  /** An interface: its index and its name, without the NUL. */
  datatype Interface = Interface(index: nat, name: seq<byte>)
  {
    predicate WellFormed() { forall i :: 0 <= i < |name| ==> name[i] != 0 }
  }

  predicate AllWellFormed(ifs: seq<Interface>) { forall x :: x in ifs ==> x.WellFormed() }

  // What the arrays should hold.

  /** The names one after the other, each with its NUL. */
  function Packed(ifs: seq<Interface>): seq<byte> {
    if ifs == [] then [] else Packed(ifs[..|ifs| - 1]) + ifs[|ifs| - 1].name + [0]
  }

  /** Where the name of the k-th interface begins. */
  function Start(ifs: seq<Interface>, k: nat): nat
    requires k <= |ifs|
  {
    |Packed(ifs[..k])|
  }

  function Offsets(ifs: seq<Interface>): seq<Entry> {
    seq(|ifs|, k requires 0 <= k < |ifs| => Entry(ifs[k].index, FromNull(Start(ifs, k))))
  }

  function Pointers(ifs: seq<Interface>, block: Addr): seq<Entry> {
    seq(|ifs|, k requires 0 <= k < |ifs| => Entry(ifs[k].index, Into(block, Start(ifs, k))))
  }

  lemma Sizes(ifs: seq<Interface>, block: Addr)
    requires ifs != []
    ensures |Packed(ifs)| > 0 && |Pointers(ifs, block)| == |ifs|
  {
  }

  lemma PackedMore(ifs: seq<Interface>, x: Interface)
    ensures Packed(ifs + [x]) == Packed(ifs) + x.name + [0]
  {
    assert (ifs + [x])[..|ifs|] == ifs;
  }

  lemma OffsetsMore(ifs: seq<Interface>, x: Interface)
    ensures Offsets(ifs + [x]) == Offsets(ifs) + [Entry(x.index, FromNull(|Packed(ifs)|))]
  {
    forall k | 0 <= k < |ifs| ensures Start(ifs + [x], k) == Start(ifs, k) {
      assert (ifs + [x])[..k] == ifs[..k];
    }
    assert (ifs + [x])[..|ifs|] == ifs;
  }

  /** From where it begins, one reads the k-th name and its NUL. */
  lemma {:induction false} NameAt(ifs: seq<Interface>, k: nat)
    requires k < |ifs| && AllWellFormed(ifs)
    ensures Start(ifs, k) + |ifs[k].name| < |Packed(ifs)|
    ensures Cstr(Packed(ifs)[Start(ifs, k)..]) == ifs[k].name
    decreases |ifs|
  {
    var front := ifs[..|ifs| - 1];
    var last := ifs[|ifs| - 1];
    if k == |ifs| - 1 {
      var tail := Packed(ifs)[Start(ifs, k)..];
      assert tail == last.name + [0];
      assert last.WellFormed() by { assert last in ifs; }
      CstrUpTo(tail, |last.name|);
    } else {
      NameAt(front, k);
      assert front[..k] == ifs[..k];
      assert Start(front, k) == Start(ifs, k) && front[k] == ifs[k];
      var tail := Packed(front)[Start(ifs, k)..];
      assert Packed(ifs)[Start(ifs, k)..] == tail + (last.name + [0]);
      assert |tail| > |ifs[k].name| == |Cstr(tail)|;
      CstrLonger(tail, last.name + [0]);
    }
  }

  lemma CstrLonger(s: seq<byte>, more: seq<byte>)
    requires |Cstr(s)| < |s|
    ensures Cstr(s + more) == Cstr(s)
  {
    CstrIs(s);
    CstrUpTo(s + more, |Cstr(s)|);
  }

  /** struct nameindex_locals */
  class Locals {
    const sHeap: Heap<Entry>
    const cHeap: Heap<byte>
    var s: Option<Addr>          // s_array
    var sLen: nat
    var sAllocated: nat
    var c: Option<Addr>          // c_array
    var cLen: nat
    var cAllocated: nat
    var oom: bool
    // Everybody else's blocks, and the counts of copied elements and of failures at the start.
    ghost const s0: map<Addr, seq<Entry>>
    ghost const c0: map<Addr, seq<byte>>
    ghost const sCopied0: nat
    ghost const cCopied0: nat
    ghost const sFailures0: nat
    ghost const cFailures0: nat

    constructor (sHeap: Heap<Entry>, cHeap: Heap<byte>)
      ensures Valid() && !oom && Entries() == [] && Chars() == []
      ensures this.sHeap == sHeap && this.cHeap == cHeap && s0 == sHeap.blocks && c0 == cHeap.blocks
      ensures s == None && c == None && sCopied0 == sHeap.copied && cCopied0 == cHeap.copied
      ensures sFailures0 == sHeap.failures && cFailures0 == cHeap.failures
    {
      this.sHeap, this.cHeap := sHeap, cHeap;
      s, sLen, sAllocated := None, 0, 0;
      c, cLen, cAllocated := None, 0, 0;
      oom := false;
      s0, c0, sCopied0, cCopied0 := sHeap.blocks, cHeap.blocks, sHeap.copied, cHeap.copied;
      sFailures0, cFailures0 := sHeap.failures, cHeap.failures;
    }

    /** The array of entries: owned, and fewer elements copied than it has room for, or twice what it holds. */
    ghost predicate SValid()
      reads this, sHeap
    {
      && sLen <= sAllocated
      && (s == None ==> sAllocated == 0 && sHeap.blocks == s0)
      && (s.Some? ==> s.value !in s0 && s.value in sHeap.blocks && |sHeap.blocks[s.value]| == sAllocated
                      && sHeap.blocks == s0[s.value := sHeap.blocks[s.value]])
      && sCopied0 <= sHeap.copied <= sCopied0 + sAllocated && sHeap.copied <= sCopied0 + 2 * sLen
      && (sLen > 0 ==> sHeap.copied < sCopied0 + 2 * sLen)
      && sHeap.failures >= sFailures0
    }

    ghost predicate CValid()
      reads this, cHeap
    {
      && cLen <= cAllocated
      && (c == None ==> cAllocated == 0 && cHeap.blocks == c0)
      && (c.Some? ==> c.value !in c0 && c.value in cHeap.blocks && |cHeap.blocks[c.value]| == cAllocated
                      && cHeap.blocks == c0[c.value := cHeap.blocks[c.value]])
      && cCopied0 <= cHeap.copied <= cCopied0 + cAllocated
      && (if cLen > 0 then cHeap.copied < cCopied0 + 2 * cLen else cHeap.copied == cCopied0)
      && cHeap.failures >= cFailures0
    }

    ghost predicate Valid()
      reads this, sHeap, cHeap
    {
      SValid() && CValid() && (oom <==> sHeap.failures > sFailures0 || cHeap.failures > cFailures0)
    }

    ghost function Entries(): seq<Entry>
      requires SValid()
      reads this, sHeap
    {
      if s == None then [] else sHeap.blocks[s.value][..sLen]
    }

    ghost function Chars(): seq<byte>
      requires CValid()
      reads this, cHeap
    {
      if c == None then [] else cHeap.blocks[c.value][..cLen]
    }

    /** The first part of add_s: room for one more entry. */
    method GrowS()
      requires SValid() && !oom
      modifies this`s, this`sAllocated, this`oom, sHeap
      ensures oom ==> SValid() && Entries() == old(Entries())
      ensures sHeap.failures == old(sHeap.failures) + if oom then 1 else 0
      ensures !oom ==> s.Some? && sLen < sAllocated && s.value !in s0
      ensures !oom ==> s.value in sHeap.blocks && |sHeap.blocks[s.value]| == sAllocated
      ensures !oom ==> sHeap.blocks == s0[s.value := sHeap.blocks[s.value]]
      ensures !oom ==> sHeap.blocks[s.value][..sLen] == old(Entries())
      ensures !oom ==> sCopied0 <= sHeap.copied <= sCopied0 + sAllocated && sHeap.copied < sCopied0 + 2 * (sLen + 1)
    {
      if sLen == sAllocated {
        var newAllocated := 2 * sAllocated + 1;
        var newArray := sHeap.Realloc(s, newAllocated);
        if newArray == None {
          oom := true;
          return;
        }
        s := newArray;
        sAllocated := newAllocated;
      }
    }

    /** add_s */
    method AddS(index: nat, name: Ptr)
      requires SValid() && !oom
      modifies this`s, this`sLen, this`sAllocated, this`oom, sHeap
      ensures SValid() && sHeap.failures == old(sHeap.failures) + if oom then 1 else 0
      ensures Entries() == if oom then old(Entries()) else old(Entries()) + [Entry(index, name)]
    {
      GrowS();
      if oom { return; }
      var cells := sHeap.blocks[s.value];
      assert cells[sLen := Entry(index, name)][..sLen + 1] == cells[..sLen] + [Entry(index, name)];
      sHeap.blocks := sHeap.blocks[s.value := cells[sLen := Entry(index, name)]];
      sLen := sLen + 1;
    }

    /** The first part of add_c: room for n more characters, n > 0. */
    method GrowC(n: nat)
      requires CValid() && !oom && n > 0
      modifies this`c, this`cAllocated, this`oom, cHeap
      ensures oom ==> CValid() && Chars() == old(Chars())
      ensures cHeap.failures == old(cHeap.failures) + if oom then 1 else 0
      ensures !oom ==> c.Some? && cLen + n <= cAllocated && c.value !in c0
      ensures !oom ==> c.value in cHeap.blocks && |cHeap.blocks[c.value]| == cAllocated
      ensures !oom ==> cHeap.blocks == c0[c.value := cHeap.blocks[c.value]]
      ensures !oom ==> cHeap.blocks[c.value][..cLen] == old(Chars())
      ensures !oom ==> cCopied0 <= cHeap.copied <= cCopied0 + cAllocated && cHeap.copied < cCopied0 + 2 * (cLen + n)
    {
      if cLen + n > cAllocated {
        var newAllocated := if cLen + n < 2 * cAllocated + 1 then 2 * cAllocated + 1 else cLen + n;
        var newArray := cHeap.Realloc(c, newAllocated);
        if newArray == None {
          oom := true;
          return;
        }
        c := newArray;
        cAllocated := newAllocated;
      }
    }

    /** add_c */
    method AddC(name: seq<byte>) returns (resultOffset: nat)
      requires CValid() && !oom
      modifies this`c, this`cLen, this`cAllocated, this`oom, cHeap
      ensures CValid() && cHeap.failures == old(cHeap.failures) + if oom then 1 else 0
      ensures Chars() == if oom then old(Chars()) else old(Chars()) + name + [0]
      ensures !oom ==> resultOffset == |old(Chars())| && c.Some?
    {
      var n := |name| + 1;
      GrowC(n);
      if oom { return 0; }
      resultOffset := cLen;
      var cells := cHeap.blocks[c.value];
      Spliced(cells, cLen, name + [0]);
      SpliceKeeps(cells, cLen, name + [0], 0, cLen);
      cHeap.blocks := cHeap.blocks[c.value := Splice(cells, cLen, name + [0])];
      cLen := cLen + n;
      assert Chars() == cells[..resultOffset] + (name + [0]);
    }

    /** nameindex_aux; true to go on. */
    method Add(ghost ifs: seq<Interface>, x: Interface) returns (more: bool)
      requires Valid() && !oom && Entries() == Offsets(ifs) && Chars() == Packed(ifs)
      modifies this`s, this`sLen, this`sAllocated, this`c, this`cLen, this`cAllocated, this`oom, sHeap, cHeap
      ensures Valid() && more == !oom
      ensures more ==> Entries() == Offsets(ifs + [x]) && Chars() == Packed(ifs + [x]) && c.Some? && sLen > 0
    {
      hide Packed, Offsets;
      PackedMore(ifs, x);
      OffsetsMore(ifs, x);
      var nameOffset := AddC(x.name);
      if !oom { AddS(x.index, FromNull(nameOffset)); }
      more := !oom;
    }

    /** if_iterate with nameindex_aux: it ends early when memory runs out. */
    method Collect(ifs: seq<Interface>)
      requires Valid() && !oom && Entries() == [] && Chars() == [] && c == None
      modifies this`s, this`sLen, this`sAllocated, this`c, this`cLen, this`cAllocated, this`oom, sHeap, cHeap
      ensures Valid()
      ensures !oom ==> Entries() == Offsets(ifs) && Chars() == Packed(ifs) && (c == None <==> ifs == [])
    {
      hide SValid, CValid, Entries, Chars;
      ghost var done: seq<Interface> := [];
      assert Offsets(done) == [] && Packed(done) == [];
      hide Offsets, Packed;
      var k := 0;
      var more := true;
      while k < |ifs| && more
        invariant 0 <= k == |done| <= |ifs| && Valid() && more == !oom
        invariant forall i :: 0 <= i < k ==> done[i] == ifs[i]
        invariant more ==> Entries() == Offsets(done) && Chars() == Packed(done) && (c == None <==> k == 0)
      {
        more := Add(done, ifs[k]);
        done := done + [ifs[k]];
        k := k + 1;
      }
      assert more ==> done == ifs;
    }

    /** p->if_name = c_array + (p->if_name - NULL) */
    method RelocateOne(p: nat)
      requires SValid() && p < sLen && c.Some? && Entries()[p].name.FromNull?
      modifies sHeap`blocks
      ensures SValid()
      ensures var e := old(Entries())[p];
        Entries() == old(Entries())[p := Entry(e.index, Into(c.value, e.name.offset))]
    {
      var cells := sHeap.blocks[s.value];
      sHeap.blocks := sHeap.blocks[s.value := cells[p := Entry(cells[p].index, Into(c.value, cells[p].name.offset))]];
    }

    /** "Convert all offsets to real pointers." */
    method Relocate(ghost ifs: seq<Interface>)
      requires Valid() && Entries() == Offsets(ifs) && (ifs != [] ==> c.Some?)
      modifies sHeap`blocks
      ensures Valid() && Entries() == if c == None then [] else Pointers(ifs, c.value)
    {
      hide SValid;
      assert |Entries()| == sLen by { EntriesLength(); }
      var p := 0;
      while p < sLen
        invariant 0 <= p <= sLen == |ifs| && Valid()
        invariant Entries() == Halfway(ifs, c, p)
      {
        RelocateOne(p);
        p := p + 1;
        assert Entries() == Halfway(ifs, c, p);
      }
      assert Entries() == if c == None then [] else Pointers(ifs, c.value);
    }

    method GiveBack()
      requires Valid()
      modifies sHeap`blocks, cHeap`blocks
      ensures sHeap.blocks == s0 && cHeap.blocks == c0
    {
      sHeap.Free(s);
      cHeap.Free(c);
    }

    lemma EntriesLength()
      requires SValid()
      ensures |Entries()| == sLen
    {
    }

    /** The finished arrays are the answer. */
    lemma AnswerIs(ifs: seq<Interface>)
      requires Valid() && AllWellFormed(ifs) && (c == None <==> ifs == [])
      requires Entries() == (if c == None then [] else Pointers(ifs, c.value)) + [Entry(0, NULL)] &&
        Chars() == Packed(ifs)
      ensures s.Some? && Answer(sHeap.blocks, cHeap.blocks, c0, s.value, ifs)
      ensures sHeap.copied < sCopied0 + 2 * (|ifs| + 1)
      ensures ifs != [] ==> cHeap.copied < cCopied0 + 2 * |Packed(ifs)|
    {
      hide Names, Packed, Pointers, AllWellFormed;
      if ifs != [] { Sizes(ifs, c.value); }
      assert |Entries()| == |ifs| + 1 && |Chars()| == cLen;
      assert sHeap.blocks[s.value][|ifs|] == Entries()[|ifs|] == Entry(0, NULL);
      if ifs != [] {
        assert Pointers(ifs, c.value) <= sHeap.blocks[s.value] && Packed(ifs) <= cHeap.blocks[c.value];
        PointersAre(ifs, c.value, sHeap.blocks[s.value], cHeap.blocks[c.value]);
      }
    }
  }

  /** The first p offsets have become pointers into c. */
  function Halfway(ifs: seq<Interface>, c: Option<Addr>, p: nat): seq<Entry>
    requires ifs != [] ==> c.Some?
  {
    seq(|ifs|, k requires 0 <= k < |ifs| =>
      Entry(ifs[k].index, if k < p then Into(c.value, Start(ifs, k)) else FromNull(Start(ifs, k))))
  }

  /** The answer in block a of `entries`: an entry for each interface and a last one; `chars` has a block beside c0. */
  ghost predicate Answer(entries: map<Addr, seq<Entry>>, chars: map<Addr, seq<byte>>, c0: map<Addr, seq<byte>>,
    a: Addr, ifs: seq<Interface>) {
    && a in entries && |ifs| < |entries[a]| && entries[a][|ifs|] == Entry(0, NULL)
    && if ifs == [] then chars == c0
       else
         exists c: Addr :: c !in c0 && c in chars && chars == c0[c := chars[c]] && Names(entries[a], chars[c], c, ifs)
  }

  /** Each entry has the index of its interface and points to its name in block c; the first points to the beginning. */
  ghost predicate Names(list: seq<Entry>, chars: seq<byte>, c: Addr, ifs: seq<Interface>)
    requires 0 < |ifs| <= |list|
  {
    && list[0].name == Into(c, 0)
    && forall k :: 0 <= k < |ifs| ==>
         && list[k].index == ifs[k].index && list[k].name.Into? && list[k].name.block == c
         && list[k].name.offset + |ifs[k].name| < |chars| && Cstr(chars[list[k].name.offset..]) == ifs[k].name
  }

  /** The k-th name, read in a longer block. */
  lemma NameIn(ifs: seq<Interface>, k: nat, chars: seq<byte>)
    requires k < |ifs| && AllWellFormed(ifs) && Packed(ifs) <= chars
    ensures Start(ifs, k) + |ifs[k].name| < |chars| && Cstr(chars[Start(ifs, k)..]) == ifs[k].name
  {
    NameAt(ifs, k);
    hide Packed;
    var tail := Packed(ifs)[Start(ifs, k)..];
    var more := chars[|Packed(ifs)|..];
    SuffixIs(Packed(ifs), chars, Start(ifs, k));
    CstrLonger(tail, more);
  }

  lemma SuffixIs(a: seq<byte>, b: seq<byte>, i: nat)
    requires a <= b && i <= |a|
    ensures b[i..] == a[i..] + b[|a|..]
  {
    assert b == a + b[|a|..];
  }

  lemma PointersAre(ifs: seq<Interface>, c: Addr, list: seq<Entry>, chars: seq<byte>)
    requires ifs != [] && AllWellFormed(ifs) && Pointers(ifs, c) <= list && Packed(ifs) <= chars
    ensures Names(list, chars, c, ifs)
  {
    assert Start(ifs, 0) == 0;
    hide Packed, Start, Cstr, AllWellFormed;
    assert forall k :: 0 <= k < |ifs| ==> list[k] == Pointers(ifs, c)[k];
    forall k | 0 <= k < |ifs|
      ensures Start(ifs, k) + |ifs[k].name| < |chars| && Cstr(chars[Start(ifs, k)..]) == ifs[k].name
    {
      NameIn(ifs, k, chars);
    }
  }

  /** if_nameindex; None for the null pointer, exactly when memory runs out. */
  method IfNameIndex(sHeap: Heap<Entry>, cHeap: Heap<byte>, ifs: seq<Interface>) returns (r: Option<Addr>)
    requires AllWellFormed(ifs)
    modifies sHeap, cHeap
    ensures r == None <==> sHeap.failures > old(sHeap.failures) || cHeap.failures > old(cHeap.failures)
    ensures r == None ==> sHeap.blocks == old(sHeap.blocks) && cHeap.blocks == old(cHeap.blocks)
    ensures r.Some? ==> r.value !in old(sHeap.blocks)
    ensures r.Some? ==> Answer(sHeap.blocks, cHeap.blocks, old(cHeap.blocks), r.value, ifs)
    ensures r.Some? ==> sHeap.blocks == old(sHeap.blocks)[r.value := sHeap.blocks[r.value]]
    ensures r.Some? ==> sHeap.copied - old(sHeap.copied) < 2 * (|ifs| + 1)
    ensures r.Some? && ifs != [] ==> cHeap.copied - old(cHeap.copied) < 2 * |Packed(ifs)|
  {
    hide Offsets, Pointers, Packed, Answer, AllWellFormed, Names;
    var l := new Locals(sHeap, cHeap);
    l.Collect(ifs);
    if !l.oom {
      l.Relocate(ifs);
      l.AddS(0, NULL);
    }
    if l.oom {
      l.GiveBack();
      return None;
    }
    r := l.s;
    l.AnswerIs(ifs);
  }

  /** The first entry leads to the block of names. */
  lemma BlocksOf(entries: map<Addr, seq<Entry>>, chars: map<Addr, seq<byte>>, c0: map<Addr, seq<byte>>, a: Addr,
    ifs: seq<Interface>)
    requires Answer(entries, chars, c0, a, ifs)
    ensures a in entries && entries[a] != [] && entries[a][0].name.offset == 0
    ensures var name := entries[a][0].name;
      if name.FromNull? then chars == c0 else name.block in chars && chars - {name.block} == c0
  {
    hide Cstr;
    if ifs != [] {
      var c: Addr :| c !in c0 && c in chars && chars == c0[c := chars[c]] && Names(entries[a], chars[c], c, ifs);
      assert chars - {c} == c0;
    }
  }

  /** if_freenameindex */
  method IfFreeNameIndex(sHeap: Heap<Entry>, cHeap: Heap<byte>, ifn: Option<Addr>, ghost c0: map<Addr, seq<byte>>,
    ghost ifs: seq<Interface>)
    requires ifn.Some? ==> Answer(sHeap.blocks, cHeap.blocks, c0, ifn.value, ifs)
    modifies sHeap`blocks, cHeap`blocks
    ensures sHeap.blocks == if ifn.Some? then old(sHeap.blocks) - {ifn.value} else old(sHeap.blocks)
    ensures cHeap.blocks == if ifn.Some? then c0 else old(cHeap.blocks)
  {
    if ifn.Some? {
      hide Answer;
      BlocksOf(sHeap.blocks, cHeap.blocks, c0, ifn.value, ifs);
      var name := sHeap.blocks[ifn.value][0].name;
      cHeap.Free(if name.FromNull? then None else Some(name.block));
      sHeap.Free(ifn);
    }
  }
}
