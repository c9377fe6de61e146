/**
  Ancillary data of sendmsg and recvmsg: how control messages are laid out in the buffer, and the walk from one to the
  next, in the arithmetic of size_t and of addresses, which wraps around.
*/
module Cmsg {
  import opened Bits
  import opened Memory
  import Alignment

  const WIDE: bool                                       // 64 bits, else 32
  const BITS: nat := if WIDE then 64 else 32
  const WORD: nat := Pow2(BITS)                          // size_t and addresses are numbers modulo this
  const SHIFT: nat := if WIDE then 3 else 2
  const SIZEOF_SIZE_T: Positive := Pow2(SHIFT)

  type HeaderSize = n: nat | n == 12 || n == 16 witness 12

  const SIZEOF_CMSGHDR: HeaderSize

  /** One more than the largest socklen_t. */
  const SOCKLEN_END: nat := 0x1_0000_0000

  lemma Sizes()
    ensures SIZEOF_SIZE_T == if WIDE then 8 else 4
    ensures WORD == if WIDE then 0x1_0000_0000_0000_0000 else SOCKLEN_END
  {
    Pow2Word();
    assert Pow2(2) == 4 && Pow2(3) == 8;
  }

  function Wrap(x: nat): nat { x % WORD }

  lemma ModIsOnce(x: nat, m: nat)
    requires m > 0 && x < 2 * m
    ensures x % m == if x < m then x else x - m
  {
  }

  lemma WrapIs(x: nat)
    requires x < 2 * WORD
    ensures Wrap(x) == if x < WORD then x else x - WORD
  {
    ModIsOnce(x, WORD);
  }

  // The macros.

  function Align(len: nat): nat {
    Sizes();
    And(Wrap(len + SIZEOF_SIZE_T - 1), WORD - SIZEOF_SIZE_T)
  }

  function Space(len: nat): nat { Wrap(Align(len) + Align(SIZEOF_CMSGHDR)) }

  function Len(len: nat): nat { Wrap(Align(SIZEOF_CMSGHDR) + len) }

  /** The next multiple of the size of size_t, without wrap-around. */
  function Up(len: nat): nat { RoundUp(len, SIZEOF_SIZE_T) }

  /** CMSG_ALIGN rounds up, but for the last lengths below the word size, which it takes to 0. */
  lemma AlignIs(len: nat)
    requires len < WORD
    ensures Align(len) == if len + SIZEOF_SIZE_T - 1 < WORD then Up(len) else 0
  {
    hide And, RoundUp, Pow2, Wrap;
    Sizes();
    var y := len + SIZEOF_SIZE_T - 1;
    WrapIs(y);
    if y < WORD {
      Alignment.MaskRoundsUp(len, SHIFT, BITS);
    } else {
      AndMask(y - WORD, SHIFT, BITS);
    }
  }

  // The buffer.

  /** msg_control, at address `base`; msg_controllen is a socklen_t, and the buffer ends below the end of memory. */
  datatype Buffer = Buffer(base: nat, bytes: seq<byte>)
  {
    function End(): nat { base + |bytes| }

    predicate Sized() { base > 0 && End() < WORD && |bytes| < SOCKLEN_END }

    /** The header at address p lies inside the buffer. */
    predicate Has(p: nat) { base <= p && p + SIZEOF_CMSGHDR <= End() }
  }

  /** Four bytes, little-endian. */
  function Number(s: seq<byte>): (r: nat)
    requires |s| == 4
    ensures r < SOCKLEN_END
  {
    s[0] as nat + 0x100 * s[1] as nat + 0x1_0000 * s[2] as nat + 0x100_0000 * s[3] as nat
  }

  /** cmsg_len of the header at p */
  function LenAt(b: Buffer, p: nat): (r: nat)
    requires b.Has(p)
    ensures r < SOCKLEN_END
  {
    Number(b.bytes[p - b.base..][..4])
  }

  /** Where a step lands: the next header, the null pointer, or a header to be read that is not in the buffer. */
  datatype Step = Null | Header(p: nat) | Outside

  /** CMSG_FIRSTHDR */
  function FirstHdr(b: Buffer): Step {
    if |b.bytes| >= SIZEOF_CMSGHDR then Header(b.base) else Null
  }

  /** The address that __cmsg_nxthdr looks at next. */
  function Landing(b: Buffer, p: nat): nat
    requires b.Has(p)
  {
    Wrap(p + Align(LenAt(b, p)))
  }

  /** __cmsg_nxthdr */
  function NextHdr(b: Buffer, p: nat): Step
    requires b.Has(p)
  {
    var q := Landing(b, p);
    if LenAt(b, p) < SIZEOF_CMSGHDR then Null
    else if Wrap(q + SIZEOF_CMSGHDR) > b.End() then Null
    else if !b.Has(q) then Outside
    else if Wrap(q + Align(LenAt(b, q))) > b.End() then Null
    else Header(q)
  }

  // One step.

  /** The step ends the walk, or goes up to a header that lies in the buffer together with its data. */
  predicate Good(b: Buffer, p: nat, s: Step) {
    s.Null? || (s.Header? && p + SIZEOF_CMSGHDR <= s.p && b.Has(s.p) && s.p + Up(LenAt(b, s.p)) <= b.End())
  }

  /** Neither the way to the next header and past it, nor the way past its data, wraps around. */
  predicate NoWrap(b: Buffer, p: nat)
    requires b.Has(p)
  {
    LenAt(b, p) >= SIZEOF_CMSGHDR ==>
      var q := p + Up(LenAt(b, p));
      q + SIZEOF_CMSGHDR < WORD && (b.Has(q) ==> q + Up(LenAt(b, q)) < WORD)
  }

  /** At q there is a header whose data would pass the end of the buffer, but not the end of memory. */
  predicate TooLong(b: Buffer, q: nat) {
    b.Has(q) && b.End() < q + Up(LenAt(b, q)) < WORD
  }

  /** The next header in the arithmetic of the numbers. */
  function PlainNext(b: Buffer, p: nat): (r: Option<nat>)
    requires b.Has(p)
    ensures r.Some? ==> p + SIZEOF_CMSGHDR <= r.value && b.Has(r.value) && r.value + Up(LenAt(b, r.value)) <= b.End()
  {
    var q := p + Up(LenAt(b, p));
    if LenAt(b, p) < SIZEOF_CMSGHDR || !b.Has(q) || q + Up(LenAt(b, q)) > b.End() then None else Some(q)
  }

  lemma LenFits(b: Buffer, p: nat)
    requires b.Has(p)
    ensures LenAt(b, p) < WORD
  {
    Sizes();
  }

  lemma PlainIsNoWrap(b: Buffer, p: nat)
    requires b.Sized() && b.Has(p) && PlainNext(b, p).Some?
    ensures NoWrap(b, p)
  {
  }

  /** The test of the data behind a header in the buffer stops the walk exactly for a header that is too long. */
  lemma DataTest(b: Buffer, q: nat)
    requires b.Sized() && b.Has(q)
    ensures Wrap(q + Align(LenAt(b, q))) > b.End() <==> TooLong(b, q)
  {
    hide Wrap, Align, LenAt, RoundUp;
    Sizes();
    LenFits(b, q);
    var n := LenAt(b, q);
    AlignIs(n);
    WrapIs(q + Align(n));
  }

  /** The test that the header lies inside, after a way that wraps around. */
  lemma HeaderTest(b: Buffer, p: nat)
    requires b.Sized() && b.Has(p) && p + Up(LenAt(b, p)) + SIZEOF_CMSGHDR >= WORD
    ensures Wrap(Landing(b, p) + SIZEOF_CMSGHDR) <= b.End()
    ensures b.Has(Landing(b, p)) ==> Landing(b, p) <= p
  {
    hide Wrap, Align, LenAt, RoundUp;
    Sizes();
    LenFits(b, p);
    var n := LenAt(b, p);
    AlignIs(n);
    WrapIs(p + Align(n));
    WrapIs(Landing(b, p) + SIZEOF_CMSGHDR);
  }

  /** After the test that the header lies inside. */
  lemma NextIs(b: Buffer, p: nat)
    requires b.Sized() && b.Has(p) && LenAt(b, p) >= SIZEOF_CMSGHDR
    requires Wrap(Landing(b, p) + SIZEOF_CMSGHDR) <= b.End()
    ensures var q := Landing(b, p);
      NextHdr(b, p) == if !b.Has(q) then Outside else if TooLong(b, q) then Null else Header(q)
  {
    hide Wrap, Align, LenAt, RoundUp, Landing, TooLong;
    var q := Landing(b, p);
    if b.Has(q) { DataTest(b, q); }
  }

  /** A step with wrap-around is good only if it lands at a header that is too long. */
  lemma WrapIsBad(b: Buffer, p: nat)
    requires b.Sized() && b.Has(p) && !NoWrap(b, p)
    ensures Good(b, p, NextHdr(b, p)) <==> TooLong(b, Landing(b, p))
    ensures Good(b, p, NextHdr(b, p)) ==> NextHdr(b, p) == Null
  {
    hide Wrap, Align, LenAt, RoundUp, Landing, NextHdr;
    var q := Landing(b, p);
    if p + Up(LenAt(b, p)) + SIZEOF_CMSGHDR >= WORD {
      HeaderTest(b, p);
    } else {
      PlainLanding(b, p);
      WrapIs(q + SIZEOF_CMSGHDR);
    }
    NextIs(b, p);
  }

  lemma PlainLanding(b: Buffer, p: nat)
    requires b.Sized() && b.Has(p) && p + Up(LenAt(b, p)) + SIZEOF_CMSGHDR < WORD
    ensures Landing(b, p) == p + Up(LenAt(b, p))
  {
    hide Wrap, Align, LenAt, RoundUp;
    Sizes();
    LenFits(b, p);
    AlignIs(LenAt(b, p));
    WrapIs(p + Align(LenAt(b, p)));
  }

  /** Without wrap-around the step is the plain one. */
  lemma NoWrapIsPlain(b: Buffer, p: nat)
    requires b.Sized() && b.Has(p) && NoWrap(b, p)
    ensures NextHdr(b, p) == (var q := PlainNext(b, p); if q.Some? then Header(q.value) else Null)
  {
    hide Wrap, Align, LenAt, RoundUp, Landing;
    if LenAt(b, p) >= SIZEOF_CMSGHDR {
      PlainLanding(b, p);
      var q := Landing(b, p);
      WrapIs(q + SIZEOF_CMSGHDR);
      if b.Has(q) { DataTest(b, q); }
    }
  }

  /** Exactly when a step ends the walk or goes up and stays inside. */
  lemma StepExactly(b: Buffer, p: nat)
    requires b.Sized() && b.Has(p)
    ensures Good(b, p, NextHdr(b, p)) <==> NoWrap(b, p) || TooLong(b, Landing(b, p))
  {
    if NoWrap(b, p) { NoWrapIsPlain(b, p); } else { WrapIsBad(b, p); }
  }

  // Whole walks.

  /** The headers that a loop over CMSG_NXTHDR visits, up to the null pointer. */
  predicate IsWalk(b: Buffer, w: seq<nat>) {
    if FirstHdr(b).Null? then w == []
    else
      && w != [] && w[0] == b.base
      && (forall i :: 0 <= i < |w| ==> b.Has(w[i]))
      && (forall i :: 0 <= i < |w| - 1 ==> NextHdr(b, w[i]) == Header(w[i + 1]))
      && NextHdr(b, w[|w| - 1]) == Null
  }

  /** The walk goes upwards, and every header after the first lies in the buffer together with its data. */
  predicate Upward(b: Buffer, w: seq<nat>) {
    forall i :: 0 < i < |w| ==> b.Has(w[i]) && w[i - 1] + SIZEOF_CMSGHDR <= w[i] && w[i] + Up(LenAt(b, w[i])) <= b.End()
  }

  ghost predicate Safe(b: Buffer) { exists w :: IsWalk(b, w) && Upward(b, w) }

  /** The headers from p on in the arithmetic of the numbers. */
  function PlainWalk(b: Buffer, p: nat): (w: seq<nat>)
    requires b.Has(p)
    ensures w != [] && w[0] == p && b.Has(w[|w| - 1])
    decreases b.End() - p
  {
    var q := PlainNext(b, p);
    if q == None then [p] else [p] + PlainWalk(b, q.value)
  }

  /** The last header of the plain walk; there is one if the buffer has room for a header. */
  function Last(b: Buffer): (p: nat)
    requires FirstHdr(b).Header?
    ensures b.Has(p)
  {
    var w := PlainWalk(b, b.base);
    w[|w| - 1]
  }

  lemma {:induction false} PlainWalkIs(b: Buffer, p: nat)
    requires b.Sized() && b.Has(p)
    ensures var w := PlainWalk(b, p);
      && (forall i :: 0 <= i < |w| ==> b.Has(w[i]))
      && (forall i :: 0 <= i < |w| - 1 ==> PlainNext(b, w[i]) == Some(w[i + 1]) && NextHdr(b, w[i]) == Header(w[i + 1]))
      && PlainNext(b, w[|w| - 1]) == None
    decreases b.End() - p
  {
    hide LenAt, NextHdr, NoWrap;
    var q := PlainNext(b, p);
    if q.Some? {
      PlainIsNoWrap(b, p);
      NoWrapIsPlain(b, p);
      PlainWalkIs(b, q.value);
      var w, rest := PlainWalk(b, p), PlainWalk(b, q.value);
      assert w == [p] + rest;
      forall i | 0 <= i < |w| - 1 ensures PlainNext(b, w[i]) == Some(w[i + 1]) && NextHdr(b, w[i]) == Header(w[i + 1]) {
        if i > 0 { assert w[i] == rest[i - 1] && w[i + 1] == rest[i]; }
      }
    }
  }

  lemma PlainWalkUpward(b: Buffer)
    requires b.Sized() && FirstHdr(b).Header?
    ensures var w := PlainWalk(b, b.base); Upward(b, w) && (NextHdr(b, Last(b)) == Null ==> IsWalk(b, w))
  {
    hide LenAt, NextHdr, PlainWalk, PlainNext, Up;
    PlainWalkIs(b, b.base);
    var w := PlainWalk(b, b.base);
    forall i | 0 < i < |w|
      ensures b.Has(w[i]) && w[i - 1] + SIZEOF_CMSGHDR <= w[i] && w[i] + Up(LenAt(b, w[i])) <= b.End()
    {
      var j := i - 1;
      assert PlainNext(b, w[j]) == Some(w[j + 1]);
    }
  }

  /** A finished walk begins like the plain one. */
  lemma {:induction false} SamePlace(b: Buffer, w: seq<nat>, k: nat)
    requires b.Sized() && FirstHdr(b).Header? && IsWalk(b, w) && k < |PlainWalk(b, b.base)|
    ensures k < |w| && w[k] == PlainWalk(b, b.base)[k]
  {
    hide LenAt, NextHdr, PlainWalk, PlainNext;
    PlainWalkIs(b, b.base);
    if k > 0 {
      SamePlace(b, w, k - 1);
      var j, plain := k - 1, PlainWalk(b, b.base);
      assert NextHdr(b, plain[j]) == Header(plain[j + 1]);
    }
  }

  /** A safe walk takes a good step from the last plain header. */
  lemma SafeIsGood(b: Buffer)
    requires b.Sized() && FirstHdr(b).Header? && Safe(b)
    ensures Good(b, Last(b), NextHdr(b, Last(b)))
  {
    hide LenAt, NextHdr, PlainWalk;
    var w :| IsWalk(b, w) && Upward(b, w);
    var k := |PlainWalk(b, b.base)| - 1;
    SamePlace(b, w, k);
    assert k == |w| - 1 || NextHdr(b, w[k]) == Header(w[k + 1]);
  }

  /** A walk ends, goes upwards and stays inside exactly if the step from the last plain header does. */
  lemma WalkExactly(b: Buffer)
    requires b.Sized()
    ensures Safe(b) <==> (FirstHdr(b).Header? ==> NoWrap(b, Last(b)) || TooLong(b, Landing(b, Last(b))))
  {
    hide LenAt, NextHdr, NoWrap, TooLong, Landing, PlainWalk, Upward, PlainNext;
    if FirstHdr(b).Null? {
      assert IsWalk(b, []) && Upward(b, []) by { NoWalk(b); }
    } else {
      StepExactly(b, Last(b));
      PlainWalkIs(b, b.base);
      PlainWalkUpward(b);
      if NoWrap(b, Last(b)) { NoWrapIsPlain(b, Last(b)); } else { WrapIsBad(b, Last(b)); }
      if Safe(b) { SafeIsGood(b); }
    }
  }

  lemma NoWalk(b: Buffer)
    requires FirstHdr(b).Null?
    ensures IsWalk(b, []) && Upward(b, [])
  {
  }

  /** In 64 bits every walk is safe, in a buffer that leaves room for one length below the end of memory. */
  lemma WideWalk(b: Buffer)
    requires WIDE && b.Sized() && b.End() + SOCKLEN_END < WORD
    ensures Safe(b)
  {
    hide LenAt, NextHdr, PlainWalk, RoundUp, TooLong, Landing;
    Sizes();
    WalkExactly(b);
    if FirstHdr(b).Header? {
      var p := Last(b);
      var q := p + Up(LenAt(b, p));
      UpBelow(LenAt(b, p));
      if b.Has(q) { UpBelow(LenAt(b, q)); }
    }
  }

  lemma UpBelow(len: nat)
    requires WIDE && len < SOCKLEN_END
    ensures Up(len) <= SOCKLEN_END
  {
    Sizes();
    assert SOCKLEN_END == Times(0x2000_0000, SIZEOF_SIZE_T);
    var q: nat :| Up(len) == Times(q, SIZEOF_SIZE_T);
    if q > 0x2000_0000 { Alignment.TimesApart(0x2000_0000, q, SIZEOF_SIZE_T); }
  }

  // What goes wrong in 32 bits.

  /** A first header with one of the greatest lengths is its own successor: a loop over CMSG_NXTHDR never ends. */
  lemma EndlessWalk(b: Buffer)
    requires !WIDE && b.Sized() && FirstHdr(b).Header? && LenAt(b, b.base) + SIZEOF_SIZE_T > SOCKLEN_END
    ensures NextHdr(b, b.base) == Header(b.base)
    ensures forall w :: !IsWalk(b, w)
  {
    hide LenAt, Align, Wrap, RoundUp;
    Sizes();
    AlignIs(LenAt(b, b.base));
    WrapIs(b.base);
    WrapIs(b.base + SIZEOF_CMSGHDR);
    forall w ensures !IsWalk(b, w) {
      if IsWalk(b, w) { EndlessAt(b, w, |w| - 1); }
    }
  }

  lemma {:induction false} EndlessAt(b: Buffer, w: seq<nat>, k: nat)
    requires FirstHdr(b).Header? && NextHdr(b, b.base) == Header(b.base) && IsWalk(b, w) && k < |w|
    ensures w[k] == b.base
  {
    hide NextHdr;
    if k > 0 {
      EndlessAt(b, w, k - 1);
      var j := k - 1;
      assert NextHdr(b, w[j]) == Header(w[j + 1]);
    }
  }

  /** A first header whose aligned length passes the end of memory leads in front of the buffer. */
  lemma BackwardStep(b: Buffer)
    requires !WIDE && b.Sized() && FirstHdr(b).Header? && LenAt(b, b.base) + SIZEOF_SIZE_T <= SOCKLEN_END
    requires b.base + Up(LenAt(b, b.base)) >= WORD
    ensures Landing(b, b.base) < b.base && NextHdr(b, b.base) == Outside
  {
    hide LenAt, Align, Wrap, RoundUp;
    Sizes();
    AlignIs(LenAt(b, b.base));
    WrapIs(b.base + Align(LenAt(b, b.base)));
    WrapIs(Landing(b, b.base) + SIZEOF_CMSGHDR);
  }

  /** There are such buffers: a header of length 2^32 - 1, and one of length 2^32 - 16. */
  lemma Witnesses() returns (endless: Buffer, backward: Buffer)
    requires !WIDE
    ensures endless.Sized() && FirstHdr(endless).Header? && LenAt(endless, endless.base) == 0xFFFF_FFFF
    ensures backward.Sized() && FirstHdr(backward).Header? && LenAt(backward, backward.base) == 0xFFFF_FFF0
    ensures backward.base + Up(LenAt(backward, backward.base)) >= WORD
  {
    Sizes();
    endless := Buffer(16, [255, 255, 255, 255] + Zeros(12));
    backward := Buffer(16, [240, 255, 255, 255] + Zeros(12));
    assert endless.bytes[0..][..4] == [255, 255, 255, 255];
    assert backward.bytes[0..][..4] == [240, 255, 255, 255];
  }

  // A buffer laid out with CMSG_SPACE and CMSG_LEN.

  /** A message: level, type and padding of the header, and its data. */
  datatype Message = Message(tag: seq<byte>, data: seq<byte>)
  {
    predicate Sized() { |tag| == SIZEOF_CMSGHDR - 4 && Up(SIZEOF_CMSGHDR) + Up(|data|) < SOCKLEN_END }

    /** The room it takes. */
    function Size(): nat { Up(SIZEOF_CMSGHDR) + Up(|data|) }
  }

  lemma UpSum(n: nat)
    ensures Up(Up(SIZEOF_CMSGHDR) + n) == Up(SIZEOF_CMSGHDR) + Up(n)
  {
    Alignment.MultipleSum(Up(SIZEOF_CMSGHDR), Up(n), SIZEOF_SIZE_T);
    Alignment.RoundUpIs(Up(SIZEOF_CMSGHDR) + n, SIZEOF_SIZE_T, Up(SIZEOF_CMSGHDR) + Up(n));
  }

  /** For a message whose size is a socklen_t the macros do not wrap around; CMSG_ALIGN of CMSG_LEN is CMSG_SPACE. */
  lemma AlignLen(m: Message)
    requires m.Sized()
    ensures Len(|m.data|) == Up(SIZEOF_CMSGHDR) + |m.data|
    ensures Space(|m.data|) == m.Size() == Align(Len(|m.data|))
  {
    hide Align, Wrap, RoundUp;
    Sizes();
    UpSum(|m.data|);
    AlignIs(|m.data|);
    AlignIs(SIZEOF_CMSGHDR);
    WrapIs(Up(SIZEOF_CMSGHDR) + |m.data|);
    WrapIs(m.Size());
    AlignIs(Len(|m.data|));
  }

  function Bytes(n: nat): (r: seq<byte>)
    requires n < SOCKLEN_END
    ensures |r| == 4
  {
    [(n % 0x100) as byte, (n / 0x100 % 0x100) as byte, (n / 0x100 / 0x100 % 0x100) as byte,
      (n / 0x100 / 0x100 / 0x100) as byte]
  }

  lemma BytesBack(n: nat)
    requires n < SOCKLEN_END
    ensures Number(Bytes(n)) == n
  {
    var x, y := n / 0x100, n / 0x100 / 0x100;
    assert n == 0x100 * x + n % 0x100 && x == 0x100 * y + x % 0x100 && y == 0x100 * (y / 0x100) + y % 0x100;
  }

  function Put(m: Message): (r: seq<byte>)
    requires m.Sized()
    ensures |r| == m.Size()
  {
    Bytes(Up(SIZEOF_CMSGHDR) + |m.data|) + m.tag + Zeros(Up(SIZEOF_CMSGHDR) - SIZEOF_CMSGHDR)
      + m.data + Zeros(Up(|m.data|) - |m.data|)
  }

  predicate AllSized(ms: seq<Message>) { forall m :: m in ms ==> m.Sized() }

  function Layout(ms: seq<Message>): seq<byte>
    requires AllSized(ms)
  {
    if ms == [] then [] else Put(ms[0]) + Layout(ms[1..])
  }

  /** A layout with zeroed room behind it. */
  function Filled(ms: seq<Message>, room: nat): seq<byte>
    requires AllSized(ms)
  {
    if ms == [] then Zeros(room) else Put(ms[0]) + Filled(ms[1..], room)
  }

  lemma {:induction false} FilledIs(ms: seq<Message>, room: nat)
    requires AllSized(ms)
    ensures Filled(ms, room) == Layout(ms) + Zeros(room)
  {
    if ms != [] { FilledIs(ms[1..], room); }
  }

  /** Where the messages begin. */
  function Starts(ms: seq<Message>, p: nat): seq<nat> {
    if ms == [] then [] else [p] + Starts(ms[1..], p + ms[0].Size())
  }

  /** A message in its place in the buffer: its length, its tag, and its data where CMSG_DATA points. */
  predicate Holds(b: Buffer, p: nat, m: Message)
    requires m.Sized()
  {
    && b.Has(p) && p + m.Size() <= b.End()
    && LenAt(b, p) == Len(|m.data|)
    && b.bytes[p - b.base + 4..][..|m.tag|] == m.tag
    && b.bytes[p - b.base + Up(SIZEOF_CMSGHDR)..][..|m.data|] == m.data
  }

  lemma Inside(pre: seq<byte>, s: seq<byte>, post: seq<byte>, lo: nat, n: nat)
    requires lo + n <= |s|
    ensures (pre + s + post)[|pre| + lo..][..n] == s[lo..][..n]
  {
  }

  lemma PutParts(m: Message)
    requires m.Sized()
    ensures Put(m)[..4] == Bytes(Up(SIZEOF_CMSGHDR) + |m.data|) && Put(m)[4..][..|m.tag|] == m.tag
    ensures Put(m)[Up(SIZEOF_CMSGHDR)..][..|m.data|] == m.data
  {
    var len := Bytes(Up(SIZEOF_CMSGHDR) + |m.data|);
    var gap, end := Zeros(Up(SIZEOF_CMSGHDR) - SIZEOF_CMSGHDR), Zeros(Up(|m.data|) - |m.data|);
    PartsIn(len, m.tag, gap, m.data, end);
  }

  lemma PartsIn(len: seq<byte>, tag: seq<byte>, gap: seq<byte>, data: seq<byte>, end: seq<byte>)
    ensures var put := len + tag + gap + data + end;
      && put[..|len|] == len && put[|len|..][..|tag|] == tag && put[|len| + |tag| + |gap|..][..|data|] == data
  {
    var put := len + tag + gap + data + end;
    assert put == len + tag + (gap + data + end);
    Inside(len, tag, gap + data + end, 0, |tag|);
    Inside(len + tag + gap, data, end, 0, |data|);
  }

  lemma PutHolds(base: nat, pre: seq<byte>, m: Message, post: seq<byte>)
    requires m.Sized()
    ensures Holds(Buffer(base, pre + Put(m) + post), base + |pre|, m)
  {
    hide Put, Bytes, Number, RoundUp;
    PutParts(m);
    AlignLen(m);
    BytesBack(Len(|m.data|));
    Inside(pre, Put(m), post, Up(SIZEOF_CMSGHDR), |m.data|);
    Inside(pre, Put(m), post, 4, |m.tag|);
    Inside(pre, Put(m), post, 0, 4);
    assert Put(m)[0..][..4] == Put(m)[..4];
  }

  /** Behind a message there is a header whose data fits. */
  lemma NextOf(b: Buffer, p: nat, m: Message)
    requires b.Sized() && m.Sized() && Holds(b, p, m) && b.Has(p + m.Size())
    requires p + m.Size() + Up(LenAt(b, p + m.Size())) <= b.End()
    ensures NextHdr(b, p) == Header(p + m.Size())
  {
    hide LenAt, Align, Wrap, RoundUp, Landing, NextHdr;
    AlignLen(m);
    UpSum(|m.data|);
    NoWrapIsPlain(b, p);
  }

  /** Behind a message there is no room for a header. */
  lemma NextOfLast(b: Buffer, p: nat, m: Message)
    requires b.Sized() && m.Sized() && Holds(b, p, m) && b.End() < p + m.Size() + SIZEOF_CMSGHDR < WORD
    ensures NextHdr(b, p) == Null
  {
    hide LenAt, Align, Wrap, RoundUp, Landing, NextHdr;
    AlignLen(m);
    UpSum(|m.data|);
    NoWrapIsPlain(b, p);
  }

  /** Zeros are a header of length 0, from which there is no next. */
  lemma ZeroHeader(base: nat, pre: seq<byte>, room: nat)
    requires room >= SIZEOF_CMSGHDR
    ensures var b, p := Buffer(base, pre + Zeros(room)), base + |pre|;
      b.Has(p) && LenAt(b, p) == 0 && Up(0) == 0 && NextHdr(b, p) == Null
  {
    var b, p := Buffer(base, pre + Zeros(room)), base + |pre|;
    assert b.bytes[|pre|..][..4] == [0, 0, 0, 0];
    assert 0 == Times(0, SIZEOF_SIZE_T);
    Alignment.RoundUpIs(0, SIZEOF_SIZE_T, 0);
  }

  /** The headers the walk visits in a layout at p with zeroed room behind it: one more if a header fits in that. */
  function Visits(ms: seq<Message>, p: nat, room: nat): seq<nat> {
    if ms == [] then (if room >= SIZEOF_CMSGHDR then [p] else [])
    else [p] + Visits(ms[1..], p + ms[0].Size(), room)
  }

  lemma {:induction false} VisitsStarts(ms: seq<Message>, p: nat, room: nat)
    ensures |Starts(ms, p)| == |ms| && Starts(ms, p) <= Visits(ms, p, room)
    ensures |Visits(ms, p, room)| == |ms| + if room >= SIZEOF_CMSGHDR then 1 else 0
  {
    if ms != [] { VisitsStarts(ms[1..], p + ms[0].Size(), room); }
  }

  /** The part of a walk from one of its headers on. */
  predicate Tail(b: Buffer, w: seq<nat>) {
    && w != [] && (forall i :: 0 <= i < |w| ==> b.Has(w[i]))
    && (forall i :: 0 <= i < |w| - 1 ==> NextHdr(b, w[i]) == Header(w[i + 1]))
    && NextHdr(b, w[|w| - 1]) == Null
  }

  lemma HoldsFits(b: Buffer, p: nat, m: Message)
    requires m.Sized() && Holds(b, p, m)
    ensures b.Has(p) && p + Up(LenAt(b, p)) <= b.End()
  {
    hide LenAt, RoundUp;
    AlignLen(m);
    UpSum(|m.data|);
  }

  /** Behind the last message there is a header, or the test that there is none does not wrap around. */
  predicate RoomBehind(b: Buffer, room: nat) {
    room >= SIZEOF_CMSGHDR || b.End() + SIZEOF_CMSGHDR < WORD + room
  }

  /** From a place where messages begin the walk visits each once, in order. */
  lemma {:induction false} LayoutTail(base: nat, pre: seq<byte>, ms: seq<Message>, room: nat)
    requires AllSized(ms) && (ms != [] || room >= SIZEOF_CMSGHDR)
    requires var b := Buffer(base, pre + Filled(ms, room)); b.Sized() && RoomBehind(b, room)
    ensures var b := Buffer(base, pre + Filled(ms, room));
      && Tail(b, Visits(ms, base + |pre|, room)) && Visits(ms, base + |pre|, room)[0] == base + |pre|
      && base + |pre| + Up(LenAt(b, base + |pre|)) <= b.End()
      && |Starts(ms, base + |pre|)| == |ms|
      && forall k :: 0 <= k < |ms| ==> Holds(b, Starts(ms, base + |pre|)[k], ms[k])
    decreases |ms|
  {
    hide LenAt, NextHdr, Up, Put, Holds;
    if ms == [] {
      ZeroHeader(base, pre, room);
    } else {
      var m, rest, p, pre' := ms[0], ms[1..], base + |pre|, pre + Put(ms[0]);
      var b := Buffer(base, pre + Filled(ms, room));
      assert pre + Filled(ms, room) == pre' + Filled(rest, room);
      PutHolds(base, pre, m, Filled(rest, room));
      HoldsFits(b, p, m);
      if rest == [] && room < SIZEOF_CMSGHDR {
        NextOfLast(b, p, m);
      } else {
        LayoutTail(base, pre', rest, room);
        NextOf(b, p, m);
        TailMore(b, p, Visits(rest, base + |pre'|, room));
        assert Visits(ms, p, room) == [p] + Visits(rest, base + |pre'|, room);
        assert Starts(ms, p) == [p] + Starts(rest, base + |pre'|);
        forall k | 0 <= k < |ms| ensures Holds(b, Starts(ms, p)[k], ms[k]) {
          if k > 0 { assert ms[k] == rest[k - 1]; }
        }
      }
    }
  }

  lemma TailMore(b: Buffer, p: nat, w: seq<nat>)
    requires Tail(b, w) && b.Has(p) && NextHdr(b, p) == Header(w[0])
    ensures Tail(b, [p] + w)
  {
    hide NextHdr;
    var v := [p] + w;
    forall i | 0 <= i < |v| - 1 ensures NextHdr(b, v[i]) == Header(v[i + 1]) {
      if i > 0 {
        var j := i - 1;
        assert v[i] == w[j] && v[i + 1] == w[j + 1];
      }
    }
  }

  lemma {:induction false} LastEnds(ms: seq<Message>, p: nat)
    requires ms != [] && AllSized(ms)
    ensures |Starts(ms, p)| == |ms|
    ensures Starts(ms, p)[|ms| - 1] + ms[|ms| - 1].Size() == p + |Layout(ms)|
    decreases |ms|
  {
    if ms[1..] != [] { LastEnds(ms[1..], p + ms[0].Size()); }
  }

  /** Every message of a layout is in its place. */
  lemma {:induction false} LayoutHolds(base: nat, pre: seq<byte>, ms: seq<Message>, room: nat)
    requires AllSized(ms)
    ensures var b := Buffer(base, pre + Filled(ms, room));
      && |Starts(ms, base + |pre|)| == |ms|
      && forall k :: 0 <= k < |ms| ==> Holds(b, Starts(ms, base + |pre|)[k], ms[k])
    decreases |ms|
  {
    hide Up, Put, Holds;
    if ms != [] {
      var m, rest, p, pre' := ms[0], ms[1..], base + |pre|, pre + Put(ms[0]);
      assert pre + Filled(ms, room) == pre' + Filled(rest, room);
      PutHolds(base, pre, m, Filled(rest, room));
      LayoutHolds(base, pre', rest, room);
      assert Starts(ms, p) == [p] + Starts(rest, base + |pre'|);
      forall k | 0 <= k < |ms| ensures Holds(Buffer(base, pre + Filled(ms, room)), Starts(ms, p)[k], ms[k]) {
        if k > 0 { assert ms[k] == rest[k - 1]; }
      }
    }
  }

  /** Without that room the step from the last message reads past the buffer. */
  lemma NextOfLastWraps(b: Buffer, p: nat, m: Message)
    requires b.Sized() && m.Sized() && Holds(b, p, m)
    requires b.End() < p + m.Size() + SIZEOF_CMSGHDR && WORD <= p + m.Size() + SIZEOF_CMSGHDR
    ensures NextHdr(b, p) == Outside
  {
    hide Align, Wrap, RoundUp, Landing, NextHdr, LenAt, TooLong;
    AlignLen(m);
    UpSum(|m.data|);
    HeaderTest(b, p);
    PlainOutside(b, p, m);
    NextIs(b, p);
  }

  lemma PlainOutside(b: Buffer, p: nat, m: Message)
    requires b.Sized() && m.Sized() && Holds(b, p, m) && b.End() < p + m.Size() + SIZEOF_CMSGHDR
    ensures LenAt(b, p) >= SIZEOF_CMSGHDR && !b.Has(Landing(b, p))
  {
    hide Align, Wrap, RoundUp, LenAt;
    Sizes();
    AlignLen(m);
    WrapIs(p + m.Size());
  }

  /**
    CMSG_FIRSTHDR and CMSG_NXTHDR visit every message of a layout once, in order, and find its data; zeroed room behind
    the last message looks like one more header, of length 0, if a header fits in it.  They do so exactly if there is
    such a header, or room for one below the end of memory.
  */
  lemma LayoutWalk(base: nat, ms: seq<Message>, room: nat)
    requires AllSized(ms) && Buffer(base, Layout(ms) + Zeros(room)).Sized()
    ensures var b := Buffer(base, Layout(ms) + Zeros(room));
      && (IsWalk(b, Visits(ms, base, room)) <==> ms == [] || RoomBehind(b, room))
      && Starts(ms, base) <= Visits(ms, base, room) && |Starts(ms, base)| == |ms|
      && |Visits(ms, base, room)| == |ms| + (if room >= SIZEOF_CMSGHDR then 1 else 0)
      && forall k :: 0 <= k < |ms| ==> Holds(b, Starts(ms, base)[k], ms[k])
  {
    hide LenAt, NextHdr, Up, Put, Holds;
    var b := Buffer(base, Layout(ms) + Zeros(room));
    VisitsStarts(ms, base, room);
    FilledIs(ms, room);
    assert [] + Filled(ms, room) == Filled(ms, room);
    LayoutHolds(base, [], ms, room);
    if ms == [] && room < SIZEOF_CMSGHDR {
      assert Layout(ms) + Zeros(room) == Zeros(room);
    } else if RoomBehind(b, room) {
      LayoutTail(base, [], ms, room);
    } else {
      var p, m := Starts(ms, base)[|ms| - 1], ms[|ms| - 1];
      LastEnds(ms, base);
      NextOfLastWraps(b, p, m);
      assert Visits(ms, base, room) == Starts(ms, base);
    }
  }
}
