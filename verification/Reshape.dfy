/** Reordering and regrouping dimensions (lib/Tools/LinearLayout.cpp:497-601): the flattened
function of a layout does not change. */
module Reshape {
  import opened F2Matrix
  import opened Words
  import opened Layout
  import opened LayoutMatrix

  // ---------- transposeOuts ----------

  // The out-dimensions of `l`, listed in the order of `order`.
  function Reordered(outs: seq<Dim>, order: seq<Dim>): (r: seq<Dim>)
    requires Names(order) == Names(outs)
    ensures |r| == |order|
    ensures forall j :: 0 <= j < |r| ==> order[j].name in Names(outs) && r[j] == outs[Index(outs, order[j].name)]
  {
    seq(|order|, j requires 0 <= j < |order| =>
      assert order[j].name in Names(order); outs[Index(outs, order[j].name)])
  }

  function PermuteVec(outs: seq<Dim>, order: seq<Dim>, v: seq<nat>): (r: seq<nat>)
    requires Names(order) == Names(outs) && |v| == |outs|
    ensures |r| == |order|
    ensures forall j :: 0 <= j < |r| ==> order[j].name in Names(outs) && r[j] == v[Index(outs, order[j].name)]
  {
    seq(|order|, j requires 0 <= j < |order| =>
      assert order[j].name in Names(order); v[Index(outs, order[j].name)])
  }

  function PermuteBases(outs: seq<Dim>, order: seq<Dim>, bases: seq<seq<nat>>): (r: seq<seq<nat>>)
    requires Names(order) == Names(outs) && Widths(bases, |outs|)
    ensures |r| == |bases| && forall i :: 0 <= i < |r| ==> r[i] == PermuteVec(outs, order, bases[i])
  {
    seq(|bases|, i requires 0 <= i < |bases| => PermuteVec(outs, order, bases[i]))
  }

  ghost predicate InWidths(ins: seq<InDim>, k: nat) {
    forall d :: 0 <= d < |ins| ==> Widths(ins[d].bases, k)
  }

  lemma WellFormedWidths(l: Layout)
    requires WellFormed(l)
    ensures InWidths(l.ins, |l.outs|)
  {
    forall d, i | 0 <= d < |l.ins| && 0 <= i < |l.ins[d].bases|
      ensures |l.ins[d].bases[i]| == |l.outs|
    {
      assert Vectors(l.outs, l.ins[d].bases);
      assert IsVector(l.outs, l.ins[d].bases[i]);
    }
  }

  /** `transposeOuts`. */
  function TransposeOuts(l: Layout, order: seq<Dim>): (t: Layout)
    requires InWidths(l.ins, |l.outs|) && Names(order) == Names(l.outs)
    ensures t.outs == Reordered(l.outs, order) && InDims(t.ins) == InDims(l.ins)
  {
    Layout(seq(|l.ins|, d requires 0 <= d < |l.ins| =>
             InDim(l.ins[d].name, PermuteBases(l.outs, order, l.ins[d].bases))),
           Reordered(l.outs, order))
  }

  lemma {:induction false} PermutedDimValue(outs: seq<Dim>, order: seq<Dim>, bases: seq<seq<nat>>, v: nat, j: nat)
    requires Names(order) == Names(outs) && Widths(bases, |outs|) && j < |order| && order[j].name in Names(outs)
    ensures DimValue(PermuteBases(outs, order, bases), v, j) == DimValue(bases, v, Index(outs, order[j].name))
  {
    if |bases| > 0 {
      assert PermuteBases(outs, order, bases)[1..] == PermuteBases(outs, order, bases[1..]);
      PermutedDimValue(outs, order, bases[1..], v / 2, j);
    }
  }

  lemma {:induction false} PermutedOutValue(l: Layout, order: seq<Dim>, x: Coord, j: nat)
    requires InWidths(l.ins, |l.outs|) && Names(order) == Names(l.outs) && Covers(InDims(l.ins), x)
    requires j < |order| && order[j].name in Names(l.outs)
    ensures OutValue(TransposeOuts(l, order).ins, x, j) == OutValue(l.ins, x, Index(l.outs, order[j].name))
    decreases |l.ins|
  {
    if |l.ins| > 0 {
      var rest := Layout(l.ins[1..], l.outs);
      assert InDims(l.ins)[1..] == InDims(rest.ins);
      assert forall i :: 0 <= i < |rest.ins| ==> InDims(rest.ins)[i] == InDims(l.ins)[i + 1];
      assert TransposeOuts(l, order).ins[1..] == TransposeOuts(rest, order).ins;
      assert InDims(l.ins)[0].name in x;
      PermutedOutValue(rest, order, x, j);
      PermutedDimValue(l.outs, order, l.ins[0].bases, x[l.ins[0].name], j);
    }
  }

  lemma TransposedWellFormed(l: Layout, order: seq<Dim>)
    requires WellFormed(l) && Distinct(order) && Names(order) == Names(l.outs)
    ensures InWidths(l.ins, |l.outs|) && WellFormed(TransposeOuts(l, order))
    ensures Names(Reordered(l.outs, order)) == Names(l.outs)
  {
    WellFormedWidths(l);
    var t := TransposeOuts(l, order);
    forall d, i | 0 <= d < |t.ins| && 0 <= i < |t.ins[d].bases|
      ensures IsVector(t.outs, t.ins[d].bases[i])
    {
      assert Vectors(l.outs, l.ins[d].bases);
      assert IsVector(l.outs, l.ins[d].bases[i]);
    }
    assert forall d :: 0 <= d < |t.ins| ==> Vectors(t.outs, t.ins[d].bases);
    SameNames(t.outs, order);
  }

  lemma SameNames(a: seq<Dim>, b: seq<Dim>)
    requires |a| == |b| && forall i :: 0 <= i < |a| ==> a[i].name == b[i].name
    ensures Names(a) == Names(b)
  {
    forall n | n in Names(a) ensures n in Names(b) {
      var i :| 0 <= i < |a| && a[i].name == n;
      assert b[i].name == n;
    }
    forall n | n in Names(b) ensures n in Names(a) {
      var i :| 0 <= i < |b| && b[i].name == n;
      assert a[i].name == n;
    }
  }

  /** Reordering the out-dimensions does not change what a layout computes. */
  lemma TransposeOutsKeeps(l: Layout, order: seq<Dim>, x: Coord)
    requires WellFormed(l) && Distinct(order) && Names(order) == Names(l.outs) && Covers(InDims(l.ins), x)
    ensures InWidths(l.ins, |l.outs|) && WellFormed(TransposeOuts(l, order))
    ensures Apply(TransposeOuts(l, order), x) == Apply(l, x)
  {
    hide Apply, Names, WellFormed, InWidths, TransposeOuts;
    TransposedWellFormed(l, order);
    SameNames(TransposeOuts(l, order).outs, order);
    var t := TransposeOuts(l, order);
    forall n | n in Names(l.outs)
      ensures Apply(t, x)[n] == Apply(l, x)[n]
    {
      TransposedAt(l, t, order, x, n);
    }
  }

  lemma TransposedAt(l: Layout, t: Layout, order: seq<Dim>, x: Coord, n: Name)
    requires WellFormed(l) && Names(order) == Names(l.outs) && Covers(InDims(l.ins), x) && n in Names(l.outs)
    requires InWidths(l.ins, |l.outs|) && t == TransposeOuts(l, order) && WellFormed(t) && Names(t.outs) == Names(l.outs)
    ensures Apply(t, x)[n] == Apply(l, x)[n]
  {
    var j := Index(t.outs, n);
    assert order[j].name in Names(l.outs) && t.outs[j].name == order[j].name;
    ApplyAt(t, x, j);
    PermutedOutValue(l, order, x, j);
  }

  // ---------- reshapeIns ----------

  // Cuts a list of basis vectors into the given in-dimensions.
  function Regroup(flat: seq<seq<nat>>, dims: seq<Dim>): (ins: seq<InDim>)
    requires |flat| == Total(dims)
    ensures InDims(ins) == dims && FlatBases(ins) == flat
  {
    if |dims| == 0 then []
    else
      var k := dims[0].bits;
      var rest := Regroup(flat[k..], dims[1..]);
      var ins := [InDim(dims[0].name, flat[..k])] + rest;
      assert ins[1..] == rest;
      assert forall i :: 0 < i < |ins| ==> InDims(ins)[i] == InDims(rest)[i - 1];
      ins
  }

  /** `reshapeIns`. */
  function ReshapeIns(l: Layout, newIns: seq<Dim>): Layout
    requires Total(newIns) == Total(InDims(l.ins))
  {
    Layout(Regroup(FlatBases(l.ins), newIns), l.outs)
  }

  lemma {:induction false} FlatVectors(outs: seq<Dim>, ins: seq<InDim>)
    requires Vectors(outs, FlatBases(ins))
    ensures AllVectors(outs, ins)
  {
    if |ins| > 0 {
      var flat, k := FlatBases(ins), |ins[0].bases|;
      assert flat[..k] == ins[0].bases && flat[k..] == FlatBases(ins[1..]);
      assert forall i :: 0 <= i < k ==> ins[0].bases[i] == flat[i];
      assert forall i :: 0 <= i < |flat| - k ==> flat[k..][i] == flat[k + i];
      FlatVectors(outs, ins[1..]);
      assert forall d :: 0 < d < |ins| ==> ins[d] == ins[1..][d - 1];
    }
  }

  /** Regrouping the in-dimensions keeps the matrix, and so the flattened function. */
  lemma ReshapeInsKeeps(l: Layout, newIns: seq<Dim>)
    requires WellFormed(l) && Distinct(newIns) && Total(newIns) == Total(InDims(l.ins))
    ensures WellFormed(ReshapeIns(l, newIns))
    ensures MatrixOf(ReshapeIns(l, newIns)) == MatrixOf(l)
  {
    FlatBasesVectors(l.outs, l.ins);
    FlatVectors(l.outs, ReshapeIns(l, newIns).ins);
  }

  // ---------- reshapeOuts ----------

  // `b += basis[i] << shifts[i]` over all out-dimensions.
  function FlatInt(dims: seq<Dim>, v: seq<nat>, shift: nat): nat
    requires |v| == |dims|
  {
    if |dims| == 0 then 0 else v[0] * Pow2(shift) + FlatInt(dims[1..], v[1..], shift + dims[0].bits)
  }

  // `push_back(b % newSize); b /= newSize` for each new out-dimension.
  function SplitInt(dims: seq<Dim>, b: nat): (v: seq<nat>)
    ensures |v| == |dims|
  {
    if |dims| == 0 then []
    else
      var newSize := Pow2(dims[0].bits);
      [b % newSize] + SplitInt(dims[1..], DivNat(b, newSize))
  }

  function DivNat(b: nat, d: nat): (q: nat)
    requires d > 0
    ensures q == b / d
  {
    b / d
  }

  lemma ShiftStep(v: nat, k: nat, s: nat, rest: nat)
    ensures v * Pow2(s) + Pow2(s + k) * rest == Pow2(s) * (rest * Pow2(k) + v)
  {
    Pow2Adds(s, k);
    var p, q := Pow2(s), Pow2(k);
    assert (p * q) * rest == p * (rest * q);
    assert p * (rest * q + v) == p * (rest * q) + p * v;
  }

  lemma {:induction false} FlatIntIs(dims: seq<Dim>, v: seq<nat>, shift: nat)
    requires IsVector(dims, v)
    ensures FlatInt(dims, v, shift) == Pow2(shift) * FromBits(FlatVec(dims, v))
  {
    if |dims| > 0 {
      var k := dims[0].bits;
      assert IsVector(dims[1..], v[1..]);
      FlatIntIs(dims[1..], v[1..], shift + k);
      FromBitsAppend(ToBits(v[0], k), FlatVec(dims[1..], v[1..]));
      FromToBits(v[0], k);
      ShiftStep(v[0], k, shift, FromBits(FlatVec(dims[1..], v[1..])));
    }
  }

  lemma {:induction false} SplitIntIs(dims: seq<Dim>, b: Bits)
    requires |b| == Total(dims)
    ensures FlatVec(dims, SplitInt(dims, FromBits(b))) == b
    ensures IsVector(dims, SplitInt(dims, FromBits(b)))
  {
    if |dims| > 0 {
      var k := dims[0].bits;
      SplitBits(b, k);
      ToFromBits(b[..k]);
      SplitIntIs(dims[1..], b[k..]);
      assert b == b[..k] + b[k..];
    }
  }

  function RegroupVec(outs: seq<Dim>, newOuts: seq<Dim>, v: seq<nat>): (r: seq<nat>)
    requires |v| == |outs|
    ensures |r| == |newOuts|
  {
    SplitInt(newOuts, FlatInt(outs, v, 0))
  }

  // Flattening and cutting up again keeps the bits of a basis vector.
  lemma RegroupVecKeeps(outs: seq<Dim>, newOuts: seq<Dim>, v: seq<nat>)
    requires IsVector(outs, v) && Total(newOuts) == Total(outs)
    ensures IsVector(newOuts, RegroupVec(outs, newOuts, v))
    ensures FlatVec(newOuts, RegroupVec(outs, newOuts, v)) == FlatVec(outs, v)
  {
    FlatIntIs(outs, v, 0);
    SplitIntIs(newOuts, FlatVec(outs, v));
  }

  function RegroupVecs(outs: seq<Dim>, newOuts: seq<Dim>, bases: seq<seq<nat>>): (r: seq<seq<nat>>)
    requires Widths(bases, |outs|)
    ensures |r| == |bases| && forall i :: 0 <= i < |r| ==> r[i] == RegroupVec(outs, newOuts, bases[i])
  {
    seq(|bases|, i requires 0 <= i < |bases| => RegroupVec(outs, newOuts, bases[i]))
  }

  /** `reshapeOuts`. */
  function ReshapeOuts(l: Layout, newOuts: seq<Dim>): (t: Layout)
    requires InWidths(l.ins, |l.outs|)
    ensures InDims(t.ins) == InDims(l.ins) && t.outs == newOuts
  {
    Layout(seq(|l.ins|, d requires 0 <= d < |l.ins| =>
             InDim(l.ins[d].name, RegroupVecs(l.outs, newOuts, l.ins[d].bases))),
           newOuts)
  }

  lemma {:induction false} RegroupedFlatBases(l: Layout, newOuts: seq<Dim>, c: nat)
    requires InWidths(l.ins, |l.outs|) && c < |FlatBases(l.ins)|
    ensures |FlatBases(l.ins)[c]| == |l.outs|
    ensures FlatBases(ReshapeOuts(l, newOuts).ins)[c] == RegroupVec(l.outs, newOuts, FlatBases(l.ins)[c])
    decreases |l.ins|
  {
    var rest, k := Layout(l.ins[1..], l.outs), |l.ins[0].bases|;
    var t := ReshapeOuts(l, newOuts);
    assert t.ins[1..] == ReshapeOuts(rest, newOuts).ins;
    assert Widths(l.ins[0].bases, |l.outs|);
    if c >= k {
      RegroupedFlatBases(rest, newOuts, c - k);
    }
  }

  /** Regrouping the out-dimensions keeps the matrix, and so the flattened function. */
  lemma ReshapeOutsKeeps(l: Layout, newOuts: seq<Dim>)
    requires WellFormed(l) && Distinct(newOuts) && Total(newOuts) == Total(l.outs)
    ensures InWidths(l.ins, |l.outs|) && WellFormed(ReshapeOuts(l, newOuts))
    ensures MatrixOf(ReshapeOuts(l, newOuts)) == MatrixOf(l)
  {
    WellFormedWidths(l);
    var t, flat := ReshapeOuts(l, newOuts), FlatBases(l.ins);
    FlatBasesVectors(l.outs, l.ins);
    forall c | 0 <= c < |flat|
      ensures IsVector(newOuts, FlatBases(t.ins)[c])
      ensures FlatVec(newOuts, FlatBases(t.ins)[c]) == FlatVec(l.outs, flat[c])
    {
      RegroupedFlatBases(l, newOuts, c);
      assert IsVector(l.outs, flat[c]);
      RegroupVecKeeps(l.outs, newOuts, flat[c]);
    }
    FlatVectors(newOuts, t.ins);
    forall r | 0 <= r < Total(newOuts)
      ensures MatrixOf(t)[r] == MatrixOf(l)[r]
    {
      forall c | 0 <= c < |flat|
        ensures MatrixOf(t)[r][c] == MatrixOf(l)[r][c]
      {
        MatrixEntry(t, r, c);
        MatrixEntry(l, r, c);
      }
    }
  }
}
