/** Strings in buffers of fixed size, as strlen, strncmp, strncpy, sprintf and strtoul see them. */
module CStrings {
  import opened Memory

  /** The bytes in front of the first NUL; all of them if there is none. */
  function Cstr(s: seq<byte>): seq<byte> {
    if s == [] || s[0] == 0 then [] else [s[0]] + Cstr(s[1..])
  }

  lemma {:induction false} CstrIs(s: seq<byte>)
    ensures Cstr(s) <= s
    ensures forall i :: 0 <= i < |Cstr(s)| ==> s[i] != 0
    ensures |Cstr(s)| < |s| ==> s[|Cstr(s)|] == 0
  {
    if s != [] && s[0] != 0 {
      CstrIs(s[1..]);
      assert forall i :: 0 < i < |s| ==> s[i] == s[1..][i - 1];
    }
  }

  lemma {:induction false} CstrUpTo(s: seq<byte>, k: nat)
    requires k <= |s| && (forall i :: 0 <= i < k ==> s[i] != 0) && (k < |s| ==> s[k] == 0)
    ensures Cstr(s) == s[..k]
  {
    if k > 0 {
      CstrUpTo(s[1..], k - 1);
      assert [s[0]] + s[1..][..k - 1] == s[..k];
    }
  }

  /** What strncpy leaves in the n bytes of its destination. */
  function Strncpy(src: seq<byte>, n: nat): (r: seq<byte>)
    ensures |r| == n
  {
    Cstr(src)[..Min(n, |Cstr(src)|)] + Zeros(n - Min(n, |Cstr(src)|))
  }

  lemma CstrPadded(s: seq<byte>, n: nat)
    requires forall i :: 0 <= i < |s| ==> s[i] != 0
    ensures Cstr(s + Zeros(n)) == s
  {
    CstrUpTo(s + Zeros(n), |s|);
  }

  lemma CstrStrncpy(src: seq<byte>, n: nat, m: nat)
    ensures Cstr(Strncpy(src, n) + Zeros(m)) == Cstr(src)[..Min(n, |Cstr(src)|)]
  {
    CstrIs(src);
    var s := Cstr(src)[..Min(n, |Cstr(src)|)];
    CstrPadded(s, n - |s| + m);
    assert Strncpy(src, n) + Zeros(m) == s + Zeros(n - |s| + m);
  }

  // Numbers.

  const ZERO: byte := 48

  predicate IsDigit(c: byte) { ZERO <= c <= ZERO + 9 }

  predicate AllDigits(s: seq<byte>) { forall i :: 0 <= i < |s| ==> IsDigit(s[i]) }

  /** sprintf ("%lu") */
  function Decimal(n: nat): seq<byte> {
    (if n < 10 then [] else Decimal(n / 10)) + [ZERO + (n % 10) as byte]
  }

  function Value(s: seq<byte>): nat
    requires AllDigits(s)
  {
    if s == [] then 0 else Value(s[..|s| - 1]) * 10 + (s[|s| - 1] - ZERO) as nat
  }

  lemma {:induction false} ValueDecimal(n: nat)
    ensures Decimal(n) != [] && AllDigits(Decimal(n)) && Value(Decimal(n)) == n
  {
    var last := [ZERO + (n % 10) as byte];
    if n >= 10 {
      ValueDecimal(n / 10);
      assert (Decimal(n / 10) + last)[..|Decimal(n)| - 1] == Decimal(n / 10);
    } else {
      assert Decimal(n) == last;
    }
  }

  /** The largest unsigned long: 32 or 64 bits. */
  type UlongMax = n: nat | n == 0xFFFF_FFFF || n == 0xFFFF_FFFF_FFFF_FFFF witness 0xFFFF_FFFF

  const ULONG_MAX: UlongMax

  predicate IsSpace(c: byte) { c == 32 || 9 <= c <= 13 }

  function SkipSpace(s: seq<byte>): seq<byte> {
    if s != [] && IsSpace(s[0]) then SkipSpace(s[1..]) else s
  }

  const PLUS: byte := 43
  const MINUS: byte := 45

  /** strtoul in base 10 on a string it uses up to the end; None if it stops earlier. */
  function Strtoul(s: seq<byte>): Option<nat> {
    var t := SkipSpace(s);
    var digits := if t != [] && t[0] in {PLUS, MINUS} then t[1..] else t;
    if digits == [] || !AllDigits(digits) then None
    else if Value(digits) > ULONG_MAX then Some(ULONG_MAX)
    else if t[0] == MINUS && Value(digits) > 0 then Some(ULONG_MAX + 1 - Value(digits))
    else Some(Value(digits))
  }

  /** (unsigned long) of an int */
  function Unsigned(n: int): nat
    requires -0x8000_0000 <= n < 0x8000_0000
  {
    if n < 0 then ULONG_MAX + 1 + n else n
  }

  /** The int that an unsigned long becomes when it is stored in one. */
  function Int(n: nat): (r: int)
    ensures -0x8000_0000 <= r < 0x8000_0000
  {
    var m := n % 0x1_0000_0000;
    if m < 0x8000_0000 then m else m - 0x1_0000_0000
  }

  lemma IntUnsigned(n: int)
    requires -0x8000_0000 <= n < 0x8000_0000
    ensures Unsigned(n) <= ULONG_MAX && Int(Unsigned(n)) == n
  {
  }

  /** What is printed is read back. */
  lemma PrintAndRead(n: int)
    requires -0x8000_0000 <= n < 0x8000_0000
    ensures var s := Decimal(Unsigned(n)); Strtoul(s).Some? && Int(Strtoul(s).value) == n
  {
    hide Int, Decimal;
    IntUnsigned(n);
    ValueDecimal(Unsigned(n));
    assert IsDigit(Decimal(Unsigned(n))[0]);
  }
}
