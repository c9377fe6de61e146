/** __readonly_area: is a piece of memory covered by mappings that can be read and not written? */
module ReadonlyArea {
  import opened Memory

  /** struct kinfo_vmentry: a mapping of the process.  The kernel lists no empty ones. */
  datatype Mapping = Mapping(from: nat, to: nat, read: bool, write: bool)
  {
    predicate Nonempty() { from < to }

    predicate Holds(a: nat) { from <= a < to }

    predicate Readonly() { read && !write }
  }

  predicate Disjoint(x: Mapping, y: Mapping) { x.to <= y.from || y.to <= x.from }

  ghost predicate AllDisjoint(maps: seq<Mapping>) {
    && (forall i :: 0 <= i < |maps| ==> maps[i].Nonempty())
    && (forall i, j :: 0 <= i < j < |maps| ==> Disjoint(maps[i], maps[j]))
  }

  /** The byte at a can be read and not written. */
  ghost predicate Covered(maps: seq<Mapping>, a: nat) {
    exists i :: 0 <= i < |maps| && maps[i].Holds(a) && maps[i].Readonly()
  }

  predicate In(a: nat, lo: nat, hi: nat) { lo <= a < hi }

  function Range(lo: nat, hi: nat): set<nat> { set a: nat | 0 <= a < hi && In(a, lo, hi) }

  lemma {:induction false} RangeSize(lo: nat, hi: nat)
    requires lo <= hi
    ensures |Range(lo, hi)| == hi - lo
    decreases hi - lo
  {
    if lo < hi {
      RangeSize(lo, hi - 1);
      assert Range(lo, hi) == Range(lo, hi - 1) + {hi - 1};
    }
  }

  /** The bytes of the area that the first n mappings do not hold. */
  function Left(maps: seq<Mapping>, n: nat, ptr: nat, end: nat): set<nat>
    requires n <= |maps|
  {
    set a: nat | a in Range(ptr, end) && forall i :: 0 <= i < n ==> !maps[i].Holds(a)
  }

  /** How much a mapping holds of the area. */
  function Clip(m: Mapping, ptr: nat, end: nat): nat {
    var lo, hi := Max(m.from, ptr), Min(m.to, end);
    if lo < hi then hi - lo else 0
  }

  lemma LeftNone(maps: seq<Mapping>, ptr: nat, end: nat)
    requires ptr <= end
    ensures |Left(maps, 0, ptr, end)| == end - ptr
  {
    RangeSize(ptr, end);
    assert Left(maps, 0, ptr, end) == Range(ptr, end);
  }

  /** What the next mapping holds of the area was left before. */
  lemma LeftNext(maps: seq<Mapping>, n: nat, ptr: nat, end: nat)
    requires AllDisjoint(maps) && n < |maps|
    ensures maps[n].Nonempty() && |Left(maps, n + 1, ptr, end)| == |Left(maps, n, ptr, end)| - Clip(maps[n], ptr, end)
  {
    var lo, hi := Max(maps[n].from, ptr), Min(maps[n].to, end);
    if lo < hi {
      RangeSize(lo, hi);
      forall a | a in Range(lo, hi) ensures a in Left(maps, n, ptr, end) {
        forall i | 0 <= i < n ensures !maps[i].Holds(a) { assert Disjoint(maps[i], maps[n]); }
      }
      assert Left(maps, n + 1, ptr, end) == Left(maps, n, ptr, end) - Range(lo, hi);
    } else {
      assert Left(maps, n + 1, ptr, end) == Left(maps, n, ptr, end);
    }
  }

  function Max(a: nat, b: nat): nat { if a < b then b else a }

  ghost predicate ReadonlySoFar(maps: seq<Mapping>, n: nat, ptr: nat, end: nat)
    requires n <= |maps|
  {
    forall i :: 0 <= i < n && maps[i].from < end && maps[i].to > ptr ==> maps[i].Readonly()
  }

  lemma AllCovered(maps: seq<Mapping>, n: nat, ptr: nat, end: nat)
    requires n <= |maps| && ReadonlySoFar(maps, n, ptr, end) && |Left(maps, n, ptr, end)| == 0
    ensures forall a :: In(a, ptr, end) ==> Covered(maps, a)
  {
    forall a | In(a, ptr, end) ensures Covered(maps, a) {
      assert a !in Left(maps, n, ptr, end);
    }
  }

  lemma SomeLeft(maps: seq<Mapping>, ptr: nat, end: nat) returns (a: nat)
    requires |Left(maps, |maps|, ptr, end)| > 0
    ensures In(a, ptr, end) && !Covered(maps, a)
  {
    a :| a in Left(maps, |maps|, ptr, end);
  }

  /** The loop of __readonly_area; `size` never becomes negative. */
  method Check(ptr: nat, area: nat, maps: seq<Mapping>) returns (r: int)
    requires AllDisjoint(maps)
    ensures r == 1 || r == -1
    ensures r == 1 <==> forall a :: In(a, ptr, ptr + area) ==> Covered(maps, a)
  {
    hide Left, Covered, AllDisjoint;
    var end := ptr + area;
    var size: nat := area;
    var n := 0;
    LeftNone(maps, ptr, end);
    while n < |maps|
      invariant 0 <= n <= |maps|
      invariant size == |Left(maps, n, ptr, end)| <= area
      invariant ReadonlySoFar(maps, n, ptr, end)
      invariant n > 0 && area > 0 ==> size > 0
    {
      var kve := maps[n];
      LeftNext(maps, n, ptr, end);
      if kve.from < end && kve.to > ptr {
        if !kve.read || kve.write {
          var a := Max(kve.from, ptr);
          assert area > 0 ==> In(a, ptr, end);
          Uncovered(maps, n, a);
          break;
        }
        if kve.from <= ptr && kve.to >= end {
          size := 0;
          AllCovered(maps, n + 1, ptr, end);
          break;
        } else if kve.from <= ptr {
          size := size - (kve.to - ptr);
        } else if kve.to >= end {
          size := size - (end - kve.from);
        } else {
          size := size - (kve.to - kve.from);
        }
        if size == 0 {
          AllCovered(maps, n + 1, ptr, end);
          break;
        }
      }
      n := n + 1;
    }
    if n == |maps| && size > 0 { var a := SomeLeft(maps, ptr, end); }
    r := if size == 0 then 1 else -1;
  }

  /** A byte of a mapping that is not readonly is not covered by any other. */
  lemma Uncovered(maps: seq<Mapping>, n: nat, a: nat)
    requires AllDisjoint(maps) && n < |maps| && maps[n].Holds(a) && !maps[n].Readonly()
    ensures !Covered(maps, a)
  {
    forall i | 0 <= i < |maps| && i != n ensures !maps[i].Holds(a) {
      assert if i < n then Disjoint(maps[i], maps[n]) else Disjoint(maps[n], maps[i]);
    }
  }
}
