/** Arrays of one to eight dimensions, stored row by row. */
module Arrays {
  import opened Options
  import opened Values

  const MAX_DIMS: nat := 8

  // ----- sizes

  function Product(dims: seq<int>): int {
    if dims == [] then 1 else Product(dims[..|dims| - 1]) * dims[|dims| - 1]
  }

  /** A 32-bit signed integer after wrap-around. */
  function Wrap32(x: int): int {
    var y := x % 0x1_0000_0000;
    if y < 0x8000_0000 then y else y - 0x1_0000_0000
  }

  /** It is the 32-bit integer that differs from x by a multiple of 2^32. */
  lemma Wraps32(x: int)
    ensures -0x8000_0000 <= Wrap32(x) <= 0x7FFF_FFFF && (Wrap32(x) - x) % 0x1_0000_0000 == 0
  {
  }

  /** The product as the code accumulates it. */
  function Product32(dims: seq<int>): int {
    if dims == [] then 1 else Wrap32(Product32(dims[..|dims| - 1]) * dims[|dims| - 1])
  }

  ghost predicate Positive(dims: seq<int>) { forall k :: 0 <= k < |dims| ==> dims[k] > 0 }

  /** What arp_array_init accepts. */
  ghost predicate Accepted(dims: seq<int>, total: int) {
    0 < |dims| <= MAX_DIMS && Positive(dims) && 0 <= total < 0x8000_0000 && Product32(dims) == total
  }

  lemma {:induction false} ProductPositive(dims: seq<int>)
    requires Positive(dims)
    ensures Product(dims) >= 1
  {
    if dims != [] {
      var n := |dims| - 1;
      ProductPositive(dims[..n]);
      assert Product(dims[..n]) * dims[n] >= 1 by { AtLeast(Product(dims[..n]), dims[n]); }
    }
  }

  lemma AtLeast(a: int, b: int)
    requires a >= 1 && b >= 1
    ensures a * b >= a && a * b >= b && a * b >= 1
  {
  }

  lemma {:induction false} NoWrap(dims: seq<int>)
    requires Positive(dims) && Product(dims) < 0x8000_0000
    ensures Product32(dims) == Product(dims)
  {
    if dims != [] {
      var n := |dims| - 1;
      ProductPositive(dims[..n]);
      AtLeast(Product(dims[..n]), dims[n]);
      NoWrap(dims[..n]);
    }
  }

  /** The element count of an accepted array is the product of its dimensions if and only if that
      product fits a 32-bit integer. */
  lemma TotalIsProduct(dims: seq<int>, total: int)
    requires Accepted(dims, total)
    ensures total == Product(dims) <==> Product(dims) < 0x8000_0000
  {
    if Product(dims) < 0x8000_0000 {
      NoWrap(dims);
    }
  }

  /** Two dimensions of 65536 are accepted with no elements at all. */
  lemma OverflowAccepted()
    ensures Accepted([65536, 65536], 0) && Product([65536, 65536]) == 0x1_0000_0000
  {
    var d := [65536, 65536];
    assert d[..1] == [65536] && d[..1][..0] == [];
    assert Product32(d[..1][..0]) == 1 && Product(d[..1][..0]) == 1;
    assert Product32(d[..1]) == 65536 && Product(d[..1]) == 65536;
    assert Wrap32(65536 * 65536) == 0;
  }

  // ----- positions

  ghost predicate InRange(dims: seq<int>, idx: seq<int>) {
    |idx| == |dims| && forall k :: 0 <= k < |dims| ==> 0 <= idx[k] < dims[k]
  }

  /** Row-major position of an index vector. */
  function Flat(dims: seq<int>, idx: seq<int>): int
    requires |idx| == |dims|
  {
    if dims == [] then 0 else
    var n := |dims| - 1;
    Flat(dims[..n], idx[..n]) * dims[n] + idx[n]
  }

  /** The position as the code accumulates it. */
  function Flat32(dims: seq<int>, idx: seq<int>): int
    requires |idx| == |dims|
  {
    if dims == [] then 0 else
    var n := |dims| - 1;
    Wrap32(Flat32(dims[..n], idx[..n]) * dims[n] + idx[n])
  }

  lemma {:induction false} FlatGrows(dims: seq<int>, idx: seq<int>, n: nat)
    requires Positive(dims) && InRange(dims, idx) && n <= |dims|
    ensures 0 <= Flat(dims[..n], idx[..n]) <= Flat(dims, idx)
    decreases |dims|
  {
    FlatInRange(dims[..n], idx[..n]);
    if n < |dims| {
      var m := |dims| - 1;
      FlatGrows(dims[..m], idx[..m], n);
      assert dims[..m][..n] == dims[..n] && idx[..m][..n] == idx[..n];
      Scaled(Flat(dims[..m], idx[..m]), dims[m]);
    } else {
      assert dims[..n] == dims && idx[..n] == idx;
    }
  }

  lemma Scaled(f: int, d: int)
    requires f >= 0 && d >= 1
    ensures f * d >= f
  {
  }

  /** The position the code computes is the true one if and only if that fits a 32-bit integer. */
  lemma {:induction false} PositionExact(dims: seq<int>, idx: seq<int>)
    requires Positive(dims) && InRange(dims, idx)
    ensures Flat32(dims, idx) == Flat(dims, idx) <==> Flat(dims, idx) < 0x8000_0000
    decreases |dims|
  {
    if dims != [] {
      var n := |dims| - 1;
      FlatGrows(dims, idx, n);
      PositionExact(dims[..n], idx[..n]);
      FlatInRange(dims, idx);
    }
  }

  /** The index vector at a position. */
  function Unflat(dims: seq<int>, p: int): (r: seq<int>)
    requires forall k :: 0 <= k < |dims| ==> dims[k] > 0
    ensures |r| == |dims|
  {
    if dims == [] then [] else
    var n := |dims| - 1;
    Unflat(dims[..n], p / dims[n]) + [p % dims[n]]
  }

  lemma {:induction false} FlatInRange(dims: seq<int>, idx: seq<int>)
    requires InRange(dims, idx)
    ensures 0 <= Flat(dims, idx) < Product(dims)
  {
    if dims != [] {
      var n := |dims| - 1;
      FlatInRange(dims[..n], idx[..n]);
      RowBound(Flat(dims[..n], idx[..n]), Product(dims[..n]), dims[n], idx[n]);
    }
  }

  lemma RowBound(f: int, p: int, d: int, i: int)
    requires 0 <= f < p && 0 <= i < d
    ensures 0 <= f * d + i < p * d
  {
    assert (f + 1) * d <= p * d;
    assert f * d >= 0;
  }

  /** Reading a position's index vector and computing its position are inverse to each other: in-range
      vectors and positions below the element count correspond one to one. */
  lemma {:induction false} UnflatFlat(dims: seq<int>, idx: seq<int>)
    requires Positive(dims) && InRange(dims, idx)
    ensures Unflat(dims, Flat(dims, idx)) == idx
  {
    if dims != [] {
      var n := |dims| - 1;
      UnflatFlat(dims[..n], idx[..n]);
      DivMod(Flat(dims[..n], idx[..n]), dims[n], idx[n]);
      assert idx == idx[..n] + [idx[n]];
    }
  }

  lemma DivMod(q: int, d: int, r: int)
    requires 0 <= r < d
    ensures (q * d + r) / d == q && (q * d + r) % d == r
  {
    var x := q * d + r;
    assert x == (x / d) * d + x % d;
    var e := x / d - q;
    assert e * d == r - x % d;
    assert e > 0 ==> e * d >= d;
    assert e < 0 ==> e * d <= -d;
  }

  /** One index vector comes before another: at the first place where they differ it is smaller. */
  ghost predicate Before(a: seq<int>, b: seq<int>) {
    |a| == |b| && exists k :: 0 <= k < |a| && FirstSmaller(a, b, k)
  }

  ghost predicate FirstSmaller(a: seq<int>, b: seq<int>, k: nat)
    requires |a| == |b| && k < |a|
  {
    a[k] < b[k] && forall j :: 0 <= j < k ==> a[j] == b[j]
  }

  /** Positions grow with the index vectors, the first index weighing most; and the last index steps from
      one position to the next. */
  lemma {:induction false} RowByRow(dims: seq<int>, a: seq<int>, b: seq<int>)
    requires InRange(dims, a) && InRange(dims, b)
    ensures Before(a, b) ==> Flat(dims, a) < Flat(dims, b)
    ensures dims != [] && b == a[|a| - 1 := a[|a| - 1] + 1] ==> Flat(dims, b) == Flat(dims, a) + 1
    decreases |dims|
  {
    if dims != [] {
      var n := |dims| - 1;
      RowByRow(dims[..n], a[..n], b[..n]);
      FlatInRange(dims[..n], a[..n]);
      if Before(a, b) {
        var k :| 0 <= k < |a| && FirstSmaller(a, b, k);
        if k < n {
          assert FirstSmaller(a[..n], b[..n], k);
          Farther(Flat(dims[..n], a[..n]), Flat(dims[..n], b[..n]), dims[n], a[n], b[n]);
        } else {
          assert a[..n] == b[..n];
        }
      }
      if b == a[n := a[n] + 1] {
        assert a[..n] == b[..n];
      }
    }
  }

  lemma Farther(f: int, g: int, d: int, i: int, j: int)
    requires 0 <= f < g && 0 <= i < d && 0 <= j
    ensures f * d + i < g * d + j
  {
    RowBound(f, g, d, i);
  }

  /** Arrays have one to eight dimensions. */
  lemma DimensionLimit(dims: seq<int>)
    requires forall k :: 0 <= k < |dims| ==> dims[k] == 1
    ensures Accepted(dims, 1) <==> 1 <= |dims| <= 8
  {
    AllOnes(dims);
    NoWrap(dims);
  }

  lemma {:induction false} AllOnes(dims: seq<int>)
    requires forall k :: 0 <= k < |dims| ==> dims[k] == 1
    ensures Product(dims) == 1
    decreases |dims|
  {
    if dims != [] {
      AllOnes(dims[..|dims| - 1]);
    }
  }

  lemma {:induction false} FlatUnflat(dims: seq<int>, p: int)
    requires Positive(dims) && 0 <= p < Product(dims)
    ensures InRange(dims, Unflat(dims, p)) && Flat(dims, Unflat(dims, p)) == p
  {
    if dims != [] {
      var n := |dims| - 1;
      var d := dims[n];
      var q, i := p / d, p % d;
      Euclid(p, d);
      QuotientBelow(p, Product(dims[..n]), d);
      FlatUnflat(dims[..n], q);
      OneMoreDim(dims[..n], Unflat(dims[..n], q), d, i);
      assert dims == dims[..n] + [d];
    }
  }

  lemma Euclid(p: int, d: int)
    requires d > 0
    ensures p == (p / d) * d + p % d && 0 <= p % d < d
  {
  }

  lemma QuotientBelow(p: int, m: int, d: int)
    requires d > 0 && 0 <= p < m * d
    ensures 0 <= p / d < m
  {
    var q := p / d;
    Euclid(p, d);
    assert q >= m ==> q * d >= m * d;
  }

  lemma OneMoreDim(dims: seq<int>, idx: seq<int>, d: int, i: int)
    requires InRange(dims, idx) && 0 <= i < d
    ensures InRange(dims + [d], idx + [i]) && Flat(dims + [d], idx + [i]) == Flat(dims, idx) * d + i
  {
    var ds, js := dims + [d], idx + [i];
    assert ds[..|dims|] == dims && js[..|idx|] == idx;
  }

  /** Different in-range vectors have different positions. */
  lemma FlatInjective(dims: seq<int>, a: seq<int>, b: seq<int>)
    requires Positive(dims) && InRange(dims, a) && InRange(dims, b)
    ensures Flat(dims, a) == Flat(dims, b) <==> a == b
  {
    UnflatFlat(dims, a);
    UnflatFlat(dims, b);
  }

  // ----- the array object

  class ArpArray {
    var dims: seq<int>
    var items: seq<Value>

    ghost predicate Valid()
      reads this
    {
      0 < |dims| <= MAX_DIMS && Positive(dims) && |items| == Product(dims) < 0x8000_0000
    }

    constructor ()
      ensures dims == [] && items == []
    {
      dims, items := [], [];
    }

    /** Takes over the shape and the values; refuses a bad shape or a wrong number of values. */
    method Init(d: seq<int>, values: seq<Value>) returns (ok: bool)
      requires |values| < 0x8000_0000
      modifies this
      ensures ok <==> Accepted(d, |values|)
      ensures if ok then dims == d && items == values else dims == old(dims) && items == old(items)
      ensures ok && Product(d) < 0x8000_0000 ==> Valid()
    {
      if |d| == 0 || |d| > MAX_DIMS {
        return false;
      }
      var expected := 1;
      var i := 0;
      while i < |d|
        invariant 0 <= i <= |d| && Positive(d[..i]) && expected == Product32(d[..i])
      {
        if d[i] <= 0 {
          return false;
        }
        assert d[..i + 1][..i] == d[..i] && d[..i + 1][i] == d[i];
        expected := Wrap32(expected * d[i]);
        i := i + 1;
      }
      assert d[..i] == d;
      if expected != |values| {
        return false;
      }
      dims, items := d, values;
      ok := true;
      if Product(d) < 0x8000_0000 {
        TotalIsProduct(d, |values|);
      }
    }

    /** Position of an index vector, as a 32-bit integer; -1 when it is out of range. */
    method FlatIndex(idx: seq<int>) returns (off: int)
      ensures if InRange(dims, idx) then off == Flat32(dims, idx) else off == -1
      ensures Valid() && InRange(dims, idx) ==> off == Flat(dims, idx)
    {
      if |idx| != |dims| {
        return -1;
      }
      off := 0;
      var i := 0;
      while i < |idx|
        invariant 0 <= i <= |idx| && InRange(dims[..i], idx[..i]) && off == Flat32(dims[..i], idx[..i])
      {
        if idx[i] < 0 || idx[i] >= dims[i] {
          return -1;
        }
        assert dims[..i + 1][..i] == dims[..i] && idx[..i + 1][..i] == idx[..i];
        off := Wrap32(off * dims[i] + idx[i]);
        i := i + 1;
      }
      assert dims[..i] == dims && idx[..i] == idx;
      if Valid() {
        FlatInRange(dims, idx);
        PositionExact(dims, idx);
      }
    }

    method Get(idx: seq<int>) returns (v: Option<Value>)
      requires Valid()
      ensures v.Some? <==> InRange(dims, idx)
      ensures v.Some? ==> At(idx) == v.value
    {
      var off := FlatIndex(idx);
      if off < 0 {
        if InRange(dims, idx) {
          FlatInRange(dims, idx);
        }
        return None;
      }
      FlatInRange(dims, idx);
      v := Some(items[off]);
    }

    /** The element at an index vector. */
    ghost function At(idx: seq<int>): Value
      requires Valid() && InRange(dims, idx)
      reads this
    {
      FlatInRange(dims, idx);
      items[Flat(dims, idx)]
    }

    /** Writes one element: there the new value, at every other in-range vector the old one. */
    method Set(idx: seq<int>, v: Value) returns (ok: bool)
      requires Valid()
      modifies this`items
      ensures Valid() && (ok <==> InRange(dims, idx))
      ensures ok ==> At(idx) == v
      ensures ok ==> forall other :: InRange(dims, other) && other != idx ==> At(other) == old(At(other))
      ensures !ok ==> items == old(items)
    {
      var off := FlatIndex(idx);
      if off < 0 {
        if InRange(dims, idx) {
          FlatInRange(dims, idx);
        }
        return false;
      }
      FlatInRange(dims, idx);
      items := items[off := v];
      ok := true;
      forall other | InRange(dims, other) && other != idx ensures At(other) == old(At(other)) {
        FlatInRange(dims, other);
        FlatInjective(dims, idx, other);
      }
    }
  }
}
