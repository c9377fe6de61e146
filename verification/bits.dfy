/** C's bitwise operators on non-negative 32-bit words, bit by bit. */
module Bits {
  const WORD_SIZE: nat := 0x1_0000_0000

  function And(a: nat, b: nat): nat {
    if a == 0 || b == 0 then 0
    else (if a % 2 == 1 && b % 2 == 1 then 1 else 0) + 2 * And(a / 2, b / 2)
  }

  function Or(a: nat, b: nat): nat {
    if a == 0 then b
    else if b == 0 then a
    else (if a % 2 == 1 || b % 2 == 1 then 1 else 0) + 2 * Or(a / 2, b / 2)
  }

  /** 32-bit addition; `atomic_exchange_and_add` of a negative value adds its two's complement. */
  function Add(a: nat, b: int): nat {
    (a + b) % WORD_SIZE
  }

  function Pow2(k: nat): (r: nat)
    ensures r >= 1
  {
    if k == 0 then 1 else 2 * Pow2(k - 1)
  }

  lemma {:induction false} Pow2Add(a: nat, b: nat)
    ensures Pow2(a + b) == Pow2(a) * Pow2(b)
  {
    if a > 0 { Pow2Add(a - 1, b); }
  }

  lemma Pow2Word()
    ensures Pow2(29) == 0x2000_0000 && Pow2(30) == 0x4000_0000
    ensures Pow2(32) == 0x1_0000_0000 && Pow2(64) == 0x1_0000_0000_0000_0000
  {
    Pow2Small();
    Pow2Add(4, 4);
    Pow2Add(8, 8);
    Pow2Add(16, 13);
    Pow2Add(16, 14);
    Pow2Add(16, 16);
    Pow2Add(32, 32);
  }

  lemma Pow2Small()
    ensures Pow2(2) == 4 && Pow2(3) == 8 && Pow2(4) == 0x10 && Pow2(13) == 0x2000 && Pow2(14) == 0x4000
  {
    assert Pow2(1) == 2 && Pow2(2) == 4;
    assert Pow2(3) == 8;
    assert Pow2(4) == 0x10;
    Pow2Add(4, 4);
    Pow2Add(8, 4);
    assert Pow2(13) == 2 * Pow2(12) && Pow2(14) == 2 * Pow2(13);
  }

  /** Masking with the low `k` ones keeps a number below 2^k. */
  lemma {:induction false} AndOnes(a: nat, k: nat)
    requires a < Pow2(k)
    ensures And(a, Pow2(k) - 1) == a
  {
    if k > 0 {
      var m := Pow2(k - 1);
      AndOnes(a / 2, k - 1);
      assert Pow2(k) - 1 == 2 * m - 1;
      AndOdd(a, m);
    }
  }

  /** Masking with ones from bit k up to bit w takes a number below 2^w down to a multiple of 2^k. */
  lemma {:induction false} AndMask(a: nat, k: nat, w: nat)
    requires k <= w && a < Pow2(w)
    ensures Pow2(k) <= Pow2(w) && And(a, Pow2(w) - Pow2(k)) == a - a % Pow2(k)
  {
    hide And;
    if k == 0 {
      AndOnes(a, w);
    } else {
      AndMask(a / 2, k - 1, w - 1);
      MaskDouble(a, Pow2(k - 1), Pow2(w - 1) - Pow2(k - 1));
    }
  }


  lemma MaskDouble(a: nat, p: nat, m: nat)
    requires p > 0 && And(a / 2, m) == a / 2 - a / 2 % p
    ensures And(a, 2 * m) == a - a % (2 * p)
  {
    hide And;
    AndDouble(a, m);
    ModDouble(a, p);
  }

  lemma ModDouble(a: nat, m: nat)
    requires m > 0
    ensures a - a % (2 * m) == 2 * (a / 2 - a / 2 % m)
  {
    var q, r := a / 2 / m, a / 2 % m;
    assert a / 2 == m * q + r;
    var b := a % 2;
    assert a == 2 * m * q + (2 * r + b) && 2 * r + b < 2 * m;
    ModIs(a, 2 * m, q, 2 * r + b);
  }

  lemma ModIs(a: nat, m: nat, q: nat, r: nat)
    requires m > 0 && a == m * q + r && r < m
    ensures a % m == r
  {
    var q', r' := a / m, a % m;
    assert a == m * q' + r';
    if q < q' { ProductsApart(q, q', m); } else if q' < q { ProductsApart(q', q, m); }
  }

  lemma {:induction false} ProductsApart(q: nat, r: nat, m: nat)
    requires q < r
    ensures m * q + m <= m * r
    decreases r
  {
    assert m * r == m * (r - 1) + m;
    if q < r - 1 { ProductsApart(q, r - 1, m); }
  }

  /** Shifting a mask left by one shifts the result. */
  lemma AndDouble(a: nat, m: nat)
    ensures And(a, 2 * m) == 2 * And(a / 2, m)
  {
  }

  lemma AndOdd(a: nat, m: nat)
    requires m > 0
    ensures And(a, 2 * m - 1) == a % 2 + 2 * And(a / 2, m - 1)
  {
    assert (2 * m - 1) / 2 == m - 1 && (2 * m - 1) % 2 == 1;
  }

  lemma AndTimesFour(a: nat, m: nat)
    ensures And(a, 4 * m) == 4 * And(a / 4, m)
  {
    AndDouble(a / 2, m);
    AndDouble(a, 2 * m);
    assert a / 2 / 2 == a / 4 && 2 * (2 * m) == 4 * m;
  }

  lemma AndZero(a: nat)
    ensures And(a, 0) == 0
  {
  }

  /** Masking with 1 reads the lowest bit. */
  lemma AndOne(a: nat)
    ensures And(a, 1) == a % 2
  {
    AndZero(a / 2);
  }

  lemma OrDouble(a: nat, m: nat)
    ensures Or(a, 2 * m) == a % 2 + 2 * Or(a / 2, m)
  {
  }

  lemma OrZero(a: nat)
    ensures Or(a, 0) == a
  {
  }

  lemma OrOne(a: nat)
    ensures Or(a, 1) == a - a % 2 + 1
  {
    OrZero(a / 2);
  }
}

/** Rounding up with a mask, as the C macros write it. */
module Alignment {
  import opened Bits
  import opened Memory

  lemma {:induction false} TimesApart(q: nat, r: nat, unit: Positive)
    requires q < r
    ensures Times(q, unit) + unit <= Times(r, unit)
    decreases r
  {
    assert Times(r, unit) == Times(r - 1, unit) + unit;
    if q < r - 1 { TimesApart(q, r - 1, unit); }
  }

  lemma {:induction false} TimesSum(q: nat, r: nat, unit: Positive)
    ensures Times(q + r, unit) == Times(q, unit) + Times(r, unit)
    decreases r
  {
    if r > 0 {
      TimesSum(q, r - 1, unit);
      assert Times(r, unit) == Times(r - 1, unit) + unit && Times(q + r, unit) == Times(q + r - 1, unit) + unit;
    }
  }

  lemma MultipleSum(x: nat, y: nat, unit: Positive)
    requires Multiple(x, unit) && Multiple(y, unit)
    ensures Multiple(x + y, unit)
  {
    var q: nat :| x == Times(q, unit);
    var r: nat :| y == Times(r, unit);
    TimesSum(q, r, unit);
  }

  lemma RoundUpIs(x: nat, unit: Positive, r: nat)
    requires Multiple(r, unit) && x <= r < x + unit
    ensures RoundUp(x, unit) == r
  {
    var q: nat :| r == Times(q, unit);
    var q': nat :| RoundUp(x, unit) == Times(q', unit);
    if q < q' { TimesApart(q, q', unit); } else if q' < q { TimesApart(q', q, unit); }
  }

  lemma RoundDown(y: nat, unit: Positive)
    ensures y % unit <= y && Multiple(y - y % unit, unit)
  {
    assert y == unit * (y / unit) + y % unit;
    assert y - y % unit == Times(y / unit, unit);
  }

  /** (x + (unit - 1)) & ~(unit - 1), for a power of two and w bits that hold the sum, rounds up to the unit. */
  lemma MaskRoundsUp(x: nat, k: nat, w: nat)
    requires k <= w && x + Pow2(k) - 1 < Pow2(w)
    ensures Pow2(k) <= Pow2(w) && And(x + Pow2(k) - 1, Pow2(w) - Pow2(k)) == RoundUp(x, Pow2(k))
  {
    var y := x + Pow2(k) - 1;
    AndMask(y, k, w);
    RoundDown(y, Pow2(k));
    RoundUpIs(x, Pow2(k), y - y % Pow2(k));
  }
}
