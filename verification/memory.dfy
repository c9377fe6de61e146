/** Bytes and the small C library operations on buffers that the other modules use. */
module Memory {
  newtype byte = x: int | 0 <= x < 256

  function Min(a: nat, b: nat): nat { if a < b then a else b }

  datatype Option<+T> = None | Some(value: T)

  function Zeros(n: nat): (r: seq<byte>)
    ensures |r| == n && forall i :: 0 <= i < n ==> r[i] == 0
  {
    seq(n, i => 0)
  }

  function Splice(b: seq<byte>, off: nat, src: seq<byte>): seq<byte>
    requires off + |src| <= |b|
  {
    b[..off] + src + b[off + |src|..]
  }

  lemma Spliced(b: seq<byte>, off: nat, src: seq<byte>)
    requires off + |src| <= |b|
    ensures var r := Splice(b, off, src); |r| == |b| && r[off..off + |src|] == src
  {
  }

  lemma SpliceKeeps(b: seq<byte>, off: nat, src: seq<byte>, lo: nat, hi: nat)
    requires off + |src| <= |b| && lo <= hi <= |b| && (hi <= off || off + |src| <= lo)
    ensures |Splice(b, off, src)| == |b| && Splice(b, off, src)[lo..hi] == b[lo..hi]
  {
  }

  // Alignment.

  type Positive = n: nat | n > 0 witness 1

  function Times(q: nat, unit: nat): nat { q * unit }

  ghost predicate Multiple(r: nat, unit: nat) { exists q: nat :: r == Times(q, unit) }

  function RoundUp(x: nat, unit: Positive): (r: nat)
    ensures x <= r < x + unit && Multiple(r, unit)
  {
    var y := x + unit - 1;
    assert y == unit * (y / unit) + y % unit;
    Times(y / unit, unit)
  }

  /** memcpy */
  method Memcpy(dst: array<byte>, off: nat, src: seq<byte>)
    requires off + |src| <= dst.Length
    modifies dst
    ensures dst[..] == Splice(old(dst[..]), off, src)
  {
    forall i | 0 <= i < |src| {
      dst[off + i] := src[i];
    }
  }
}
