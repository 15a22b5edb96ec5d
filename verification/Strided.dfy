/** Multi-dimensional indexes, strides, and the decoding of a linear element number that the copy
kernels perform (FlagGems/triton_src/cat_copy.py:17-40, FlagGems/triton_src/copy.py:14-43). */
module Strided {
  import opened Arith

  type Sizes = seq<nat>

  function Numel(shape: Sizes): nat {
    if shape == [] then 1 else Numel(shape[..|shape| - 1]) * shape[|shape| - 1]
  }

  ghost predicate IsIndex(shape: Sizes, idx: seq<nat>) {
    |idx| == |shape| && forall d :: 0 <= d < |idx| ==> idx[d] < shape[d]
  }

  // Row-major number of an index.
  function Linear(shape: Sizes, idx: seq<nat>): nat
    requires |idx| == |shape|
  {
    if shape == [] then 0
    else Linear(shape[..|shape| - 1], idx[..|shape| - 1]) * shape[|shape| - 1] + idx[|shape| - 1]
  }

  // The index with a given number: last dimension first, remainder by remainder.
  function Decode(shape: Sizes, e: nat): (idx: seq<nat>)
    requires forall d :: 0 <= d < |shape| ==> shape[d] > 0
    ensures |idx| == |shape|
  {
    if shape == [] then []
    else Decode(shape[..|shape| - 1], e / shape[|shape| - 1]) + [e % shape[|shape| - 1]]
  }

  function Dot(idx: seq<nat>, strides: seq<nat>): nat
    requires |idx| == |strides|
  {
    if idx == [] then 0 else Dot(idx[..|idx| - 1], strides[..|idx| - 1]) + idx[|idx| - 1] * strides[|idx| - 1]
  }

  lemma IndexFront(shape: Sizes, idx: seq<nat>)
    requires shape != [] && IsIndex(shape, idx)
    ensures IsIndex(shape[..|shape| - 1], idx[..|shape| - 1]) && idx[|shape| - 1] < shape[|shape| - 1]
  {
  }

  /** An index is numbered below the number of elements, and decoding its number gives it back. */
  lemma {:induction false} DecodeLinear(shape: Sizes, idx: seq<nat>)
    requires IsIndex(shape, idx)
    ensures forall d :: 0 <= d < |shape| ==> shape[d] > 0
    ensures Linear(shape, idx) < Numel(shape) && Decode(shape, Linear(shape, idx)) == idx
  {
    if shape != [] {
      var n := |shape| - 1;
      IndexFront(shape, idx);
      DecodeLinear(shape[..n], idx[..n]);
      var q := Linear(shape[..n], idx[..n]);
      DivModUnique(Linear(shape, idx), shape[n], q, idx[n]);
      Below(q, Numel(shape[..n]), shape[n], idx[n]);
      assert idx == idx[..n] + [idx[n]];
    }
  }

  lemma Below(q: nat, b: nat, s: nat, r: nat)
    requires q < b && r < s
    ensures q * s + r < b * s
  {
    Multiples(b - q, s);
    assert b * s - q * s == (b - q) * s;
  }

  /** Every element number below the number of elements is the number of the index it decodes to. */
  lemma {:induction false} LinearDecode(shape: Sizes, e: nat)
    requires e < Numel(shape)
    ensures forall d :: 0 <= d < |shape| ==> shape[d] > 0
    ensures IsIndex(shape, Decode(shape, e)) && Linear(shape, Decode(shape, e)) == e
  {
    hide Linear, Decode;
    LinearOfNothing();
    if shape != [] {
      var n := |shape| - 1;
      FactorsPositive(Numel(shape[..n]), shape[n], e);
      QuotientBelow(e, shape[n], Numel(shape[..n]));
      LinearDecode(shape[..n], e / shape[n]);
      assert forall d :: 0 <= d < n ==> shape[..n][d] == shape[d];
      DecodeSnoc(shape, e);
    }
  }

  lemma LinearOfNothing()
    ensures Decode([], 0) == [] && Linear([], []) == 0
  {
  }

  lemma DecodeSnoc(shape: Sizes, e: nat)
    requires shape != [] && forall d :: 0 <= d < |shape| ==> shape[d] > 0
    requires IsIndex(shape[..|shape| - 1], Decode(shape[..|shape| - 1], e / shape[|shape| - 1]))
    requires Linear(shape[..|shape| - 1], Decode(shape[..|shape| - 1], e / shape[|shape| - 1])) == e / shape[|shape| - 1]
    ensures IsIndex(shape, Decode(shape, e)) && Linear(shape, Decode(shape, e)) == e
  {
    var n := |shape| - 1;
    var idx, front := Decode(shape, e), Decode(shape[..n], e / shape[n]);
    DivisionSplits(e, shape[n]);
    assert idx == front + [e % shape[n]];
    LinearSnoc(shape, front, e % shape[n]);
  }

  lemma LinearSnoc(shape: Sizes, front: seq<nat>, last: nat)
    requires shape != [] && IsIndex(shape[..|shape| - 1], front) && last < shape[|shape| - 1]
    ensures IsIndex(shape, front + [last])
    ensures Linear(shape, front + [last]) == Linear(shape[..|shape| - 1], front) * shape[|shape| - 1] + last
  {
    var n, idx := |shape| - 1, front + [last];
    assert idx[..n] == front && idx[n] == last;
    assert forall d :: 0 <= d < n ==> shape[..n][d] == shape[d];
  }

  lemma DivisionSplits(e: nat, s: nat)
    requires s > 0
    ensures e / s * s + e % s == e && e % s < s
  {
  }

  lemma FactorsPositive(a: nat, b: nat, e: nat)
    requires e < a * b
    ensures a > 0 && b > 0
  {
  }

  lemma QuotientBelow(e: nat, s: nat, b: nat)
    requires s > 0 && e < b * s
    ensures e / s < b
  {
    var q := e / s;
    assert q * s <= e;
    assert q >= b ==> (q - b) * s >= 0 && q * s - b * s == (q - b) * s;
  }

  // The first dimension in which they differ decides.
  ghost predicate Before(a: seq<nat>, b: seq<nat>)
    requires |a| == |b|
  {
    exists d :: 0 <= d < |a| && a[d] < b[d] && a[..d] == b[..d]
  }

  /** The numbering is row-major: a later dimension only matters where the earlier ones agree. */
  lemma {:induction false} LinearInOrder(shape: Sizes, a: seq<nat>, b: seq<nat>)
    requires IsIndex(shape, a) && IsIndex(shape, b)
    ensures Linear(shape, a) < Linear(shape, b) <==> Before(a, b)
  {
    if shape != [] {
      var n := |shape| - 1;
      IndexFront(shape, a);
      IndexFront(shape, b);
      LinearInOrder(shape[..n], a[..n], b[..n]);
      LinearInOrder(shape[..n], b[..n], a[..n]);
      BeforeLast(a, b, n);
      BeforeLast(b, a, n);
      if Linear(shape[..n], a[..n]) == Linear(shape[..n], b[..n]) {
        LinearInjective(shape[..n], a[..n], b[..n]);
      } else if Linear(shape[..n], a[..n]) < Linear(shape[..n], b[..n]) {
        Below(Linear(shape[..n], a[..n]), Linear(shape[..n], b[..n]), shape[n], a[n]);
      } else {
        Below(Linear(shape[..n], b[..n]), Linear(shape[..n], a[..n]), shape[n], b[n]);
        NotBoth(a[..n], b[..n]);
      }
    }
  }

  lemma BeforeLast(a: seq<nat>, b: seq<nat>, n: nat)
    requires |a| == |b| == n + 1
    ensures Before(a, b) <==> Before(a[..n], b[..n]) || (a[..n] == b[..n] && a[n] < b[n])
  {
    forall d | 0 <= d < n ensures a[..n][..d] == a[..d] && b[..n][..d] == b[..d] {
    }
    if d :| 0 <= d < n + 1 && a[d] < b[d] && a[..d] == b[..d] {
      if d < n {
        assert a[..n][d] < b[..n][d] && a[..n][..d] == b[..n][..d];
      }
    }
    if d :| 0 <= d < n && a[..n][d] < b[..n][d] && a[..n][..d] == b[..n][..d] {
      assert a[d] < b[d] && a[..d] == b[..d];
    }
  }

  lemma NotBoth(a: seq<nat>, b: seq<nat>)
    requires |a| == |b| && Before(b, a)
    ensures !Before(a, b) && a != b
  {
    var d :| 0 <= d < |b| && b[d] < a[d] && b[..d] == a[..d];
    forall e | 0 <= e < |a| && a[..e] == b[..e] ensures a[e] >= b[e] {
      if e < d {
        AgreeAt(a, b, d, e);
      } else if e > d {
        AgreeAt(a, b, e, d);
      }
    }
  }

  lemma AgreeAt(a: seq<nat>, b: seq<nat>, n: nat, d: nat)
    requires d < n <= |a| == |b| && a[..n] == b[..n]
    ensures a[d] == b[d]
  {
    assert a[d] == a[..n][d] && b[d] == b[..n][d];
  }

  /** A step along one dimension adds its stride, and the first element is at offset 0. */
  lemma {:induction false} DotStep(idx: seq<nat>, strides: seq<nat>, d: nat)
    requires d < |idx| == |strides|
    ensures Dot(idx[d := idx[d] + 1], strides) == Dot(idx, strides) + strides[d]
  {
    var n := |idx| - 1;
    var step := idx[d := idx[d] + 1];
    if d < n {
      DotStep(idx[..n], strides[..n], d);
      assert step[..n] == idx[..n][d := idx[d] + 1];
    } else {
      assert step[..n] == idx[..n];
      assert (idx[n] + 1) * strides[n] == idx[n] * strides[n] + strides[n];
    }
  }

  lemma {:induction false} DotOfZeros(idx: seq<nat>, strides: seq<nat>)
    requires |idx| == |strides| && forall d :: 0 <= d < |idx| ==> idx[d] == 0
    ensures Dot(idx, strides) == 0
  {
    if idx != [] {
      DotOfZeros(idx[..|idx| - 1], strides[..|idx| - 1]);
    }
  }

  lemma LinearInjective(shape: Sizes, a: seq<nat>, b: seq<nat>)
    requires IsIndex(shape, a) && IsIndex(shape, b) && Linear(shape, a) == Linear(shape, b)
    ensures a == b
  {
    DecodeLinear(shape, a);
    DecodeLinear(shape, b);
  }

  // ---------- strides ----------

  function Scaled(s: seq<nat>, k: nat): (r: seq<nat>)
    ensures |r| == |s| && forall i :: 0 <= i < |r| ==> r[i] == s[i] * k
  {
    seq(|s|, i requires 0 <= i < |s| => s[i] * k)
  }

  // Row-major strides.
  function Contiguous(shape: Sizes): (s: seq<nat>)
    ensures |s| == |shape|
  {
    if shape == [] then [] else Scaled(Contiguous(shape[..|shape| - 1]), shape[|shape| - 1]) + [1]
  }

  lemma {:induction false} DotScaled(idx: seq<nat>, s: seq<nat>, k: nat)
    requires |idx| == |s|
    ensures Dot(idx, Scaled(s, k)) == Dot(idx, s) * k
  {
    if idx != [] {
      var n := |idx| - 1;
      DotScaled(idx[..n], s[..n], k);
      assert Scaled(s, k)[..n] == Scaled(s[..n], k);
      Distribute(Dot(idx[..n], s[..n]), idx[n], s[n], k);
    }
  }

  lemma Distribute(a: nat, i: nat, s: nat, k: nat)
    ensures a * k + i * (s * k) == (a + i * s) * k
  {
    assert i * (s * k) == i * s * k;
  }

  /** Row-major strides number the elements. */
  lemma {:induction false} DotContiguous(shape: Sizes, idx: seq<nat>)
    requires |idx| == |shape|
    ensures Dot(idx, Contiguous(shape)) == Linear(shape, idx)
  {
    if shape != [] {
      var n := |shape| - 1;
      var s := Contiguous(shape[..n]);
      DotContiguous(shape[..n], idx[..n]);
      DotScaled(idx[..n], s, shape[n]);
      assert Contiguous(shape)[..n] == Scaled(s, shape[n]);
    }
  }

  // Strides that an index does not use make no difference.
  lemma {:induction false} DotSame(idx: seq<nat>, s: seq<nat>, t: seq<nat>)
    requires |idx| == |s| == |t| && forall d :: 0 <= d < |idx| ==> idx[d] == 0 || s[d] == t[d]
    ensures Dot(idx, s) == Dot(idx, t)
  {
    if idx != [] {
      var n := |idx| - 1;
      DotSame(idx[..n], s[..n], t[..n]);
      assert idx[n] == 0 ==> idx[n] * s[n] == idx[n] * t[n];
    }
  }

  // Moving an index along one dimension moves its position by the stride.
  lemma {:induction false} DotShift(idx: seq<nat>, s: seq<nat>, d: nat, dist: nat)
    requires |idx| == |s| && d < |idx|
    ensures Dot(idx[d := idx[d] + dist], s) == Dot(idx, s) + dist * s[d]
  {
    var n := |idx| - 1;
    var moved := idx[d := idx[d] + dist];
    if d < n {
      assert moved[..n] == idx[..n][d := idx[d] + dist];
      DotShift(idx[..n], s[..n], d, dist);
    } else {
      assert moved[..n] == idx[..n];
      assert (idx[n] + dist) * s[n] == idx[n] * s[n] + dist * s[n];
    }
  }

  // ---------- tensors ----------

  /** A strided view of a memory. */
  datatype View = View(base: nat, shape: Sizes, strides: seq<nat>) {
    ghost predicate Valid(size: nat) {
      && |strides| == |shape|
      && forall idx: seq<nat> :: IsIndex(shape, idx) ==> InBounds(size, idx)
    }

    ghost predicate InBounds(size: nat, idx: seq<nat>)
      requires |strides| == |shape|
    {
      |idx| == |shape| && Position(idx) < size
    }

    function Position(idx: seq<nat>): nat
      requires |idx| == |shape| == |strides|
    {
      base + Dot(idx, strides)
    }

    // No two indexes name the same cell.
    ghost predicate Separate()
      requires |strides| == |shape|
    {
      forall a: seq<nat>, b: seq<nat> :: IsIndex(shape, a) && IsIndex(shape, b) && Position(a) == Position(b) ==> a == b
    }

    // As in PyTorch: strides of dimensions of size 1 do not matter, and none do without elements.
    predicate IsContiguous()
    {
      && |strides| == |shape|
      && (Numel(shape) == 0 || forall d :: 0 <= d < |shape| ==> shape[d] == 1 || strides[d] == Contiguous(shape)[d])
    }
  }

  // ---------- the decoding loop ----------

  // What the dimensions from i on have contributed, plus what the rest will, is the position.
  ghost predicate Partway(shape: Sizes, s: seq<nat>, e: nat, i: nat, remaining: nat, sum: nat)
    requires |shape| == |s| && forall d :: 0 <= d < |shape| ==> shape[d] > 0
  {
    var n := Min(i, |shape|);
    sum + Dot(Decode(shape[..n], remaining), s[..n]) == Dot(Decode(shape, e), s)
  }

  lemma PartwayStart(shape: Sizes, s: seq<nat>, e: nat, i: nat)
    requires |shape| == |s| <= i && forall d :: 0 <= d < |shape| ==> shape[d] > 0
    ensures Partway(shape, s, e, i, e, 0)
  {
    assert shape[..|shape|] == shape && s[..|s|] == s;
  }

  lemma PartwayEnd(shape: Sizes, s: seq<nat>, e: nat, remaining: nat, sum: nat)
    requires |shape| == |s| && (forall d :: 0 <= d < |shape| ==> shape[d] > 0) && Partway(shape, s, e, 0, remaining, sum)
    ensures sum == Dot(Decode(shape, e), s)
  {
  }

  lemma PartwayStep(shape: Sizes, s: seq<nat>, e: nat, i: nat, remaining: nat, sum: nat)
    requires |shape| == |s| && (forall d :: 0 <= d < |shape| ==> shape[d] > 0) && Partway(shape, s, e, i + 1, remaining, sum)
    ensures if i < |shape| then Partway(shape, s, e, i, remaining / shape[i], sum + remaining % shape[i] * s[i])
            else Partway(shape, s, e, i, remaining, sum)
  {
    if i < |shape| {
      DecodeStep(shape, i, remaining, s);
    }
  }

  lemma ByOne(v: nat)
    ensures v % 1 == 0 && v / 1 == v
  {
  }

  /** The loop over dimensions, last to first; beyond the rank it sees size 1 and stride 0. */
  method Offsets(e: nat, shape: Sizes, sa: seq<nat>, sb: seq<nat>, maxDims: nat) returns (a: nat, b: nat)
    requires |shape| == |sa| == |sb| <= maxDims && e < Numel(shape)
    ensures (forall d :: 0 <= d < |shape| ==> shape[d] > 0) && |Decode(shape, e)| == |shape|
    ensures a == Dot(Decode(shape, e), sa) && b == Dot(Decode(shape, e), sb)
  {
    hide Partway, Dot, Decode;
    LinearDecode(shape, e);
    var remaining := e;
    a, b := 0, 0;
    PartwayStart(shape, sa, e, maxDims);
    PartwayStart(shape, sb, e, maxDims);
    var i := maxDims;
    while i > 0
      invariant 0 <= i <= maxDims
      invariant Partway(shape, sa, e, i, remaining, a) && Partway(shape, sb, e, i, remaining, b)
    {
      i := i - 1;
      PartwayStep(shape, sa, e, i, remaining, a);
      PartwayStep(shape, sb, e, i, remaining, b);
      ByOne(remaining);
      var inner := i < |shape|;
      var size := if inner then shape[i] else 1;
      var strideA := if inner then sa[i] else 0;
      var strideB := if inner then sb[i] else 0;
      var index := remaining % size;
      remaining := remaining / size;
      a := a + index * strideA;
      b := b + index * strideB;
    }
    PartwayEnd(shape, sa, e, remaining, a);
    PartwayEnd(shape, sb, e, remaining, b);
  }

  lemma DecodeStep(shape: Sizes, i: nat, remaining: nat, s: seq<nat>)
    requires i < |shape| == |s| && forall d :: 0 <= d < |shape| ==> shape[d] > 0
    ensures Dot(Decode(shape[..i + 1], remaining), s[..i + 1]) ==
            Dot(Decode(shape[..i], remaining / shape[i]), s[..i]) + remaining % shape[i] * s[i]
  {
    assert shape[..i + 1][..i] == shape[..i] && s[..i + 1][..i] == s[..i];
    var idx := Decode(shape[..i + 1], remaining);
    assert idx[..i] == Decode(shape[..i], remaining / shape[i]) && idx[i] == remaining % shape[i];
  }
}
