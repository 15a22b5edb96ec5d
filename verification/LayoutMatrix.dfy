/** The matrix of a layout (lib/Tools/LinearLayout.cpp:70-113): one column per in bit, one row
per out bit.  Applying the layout is multiplying by this matrix. */
module LayoutMatrix {
  import opened F2Matrix
  import opened Words
  import opened Layout

  // All basis vectors, in-dimensions in order.
  function FlatBases(ins: seq<InDim>): (b: seq<seq<nat>>)
    ensures |b| == Total(InDims(ins))
  {
    if |ins| == 0 then []
    else
      assert InDims(ins)[1..] == InDims(ins[1..]);
      ins[0].bases + FlatBases(ins[1..])
  }

  lemma {:induction false} FlatBasesVectors(outs: seq<Dim>, ins: seq<InDim>)
    requires AllVectors(outs, ins)
    ensures Vectors(outs, FlatBases(ins))
  {
    if |ins| > 0 {
      FlatBasesVectors(outs, ins[1..]);
      assert Vectors(outs, ins[0].bases);
    }
  }

  ghost predicate Widths(bases: seq<seq<nat>>, k: nat) {
    forall i :: 0 <= i < |bases| ==> |bases[i]| == k
  }

  // Row r: bit r of every flattened basis vector.
  ghost function BitRow(outs: seq<Dim>, bases: seq<seq<nat>>, r: nat): (row: Bits)
    requires Widths(bases, |outs|) && r < Total(outs)
    ensures |row| == |bases|
    ensures forall c :: 0 <= c < |row| ==> row[c] == FlatVec(outs, bases[c])[r]
  {
    seq(|bases|, c requires 0 <= c < |bases| => FlatVec(outs, bases[c])[r])
  }

  ghost function BitRows(outs: seq<Dim>, bases: seq<seq<nat>>): (m: Matrix)
    requires Widths(bases, |outs|)
    ensures IsMatrix(m, |bases|) && |m| == Total(outs)
    ensures forall r :: 0 <= r < |m| ==> m[r] == BitRow(outs, bases, r)
  {
    seq(Total(outs), r requires 0 <= r < Total(outs) => BitRow(outs, bases, r))
  }

  lemma FlatWidths(l: Layout)
    requires WellFormed(l)
    ensures Widths(FlatBases(l.ins), |l.outs|)
  {
    FlatBasesVectors(l.outs, l.ins);
    forall i | 0 <= i < |FlatBases(l.ins)|
      ensures |FlatBases(l.ins)[i]| == |l.outs|
    {
      assert IsVector(l.outs, FlatBases(l.ins)[i]);
    }
  }

  ghost function MatrixOf(l: Layout): (m: Matrix)
    requires WellFormed(l)
    ensures IsMatrix(m, Total(InDims(l.ins))) && |m| == Total(l.outs)
  {
    FlatWidths(l);
    BitRows(l.outs, FlatBases(l.ins))
  }

  lemma MatrixEntry(l: Layout, r: nat, c: nat)
    requires WellFormed(l) && r < Total(l.outs) && c < Total(InDims(l.ins))
    ensures |FlatBases(l.ins)[c]| == |l.outs|
    ensures MatrixOf(l)[r][c] == FlatVec(l.outs, FlatBases(l.ins)[c])[r]
  {
    FlatWidths(l);
    assert MatrixOf(l)[r] == BitRow(l.outs, FlatBases(l.ins), r);
  }

  // ---------- xor of selected basis vectors ----------

  function XorVec(a: seq<nat>, b: seq<nat>): (r: seq<nat>)
    requires |a| == |b|
    ensures |r| == |a| && forall j :: 0 <= j < |r| ==> r[j] == XorInt(a[j], b[j])
  {
    seq(|a|, j requires 0 <= j < |a| => XorInt(a[j], b[j]))
  }

  function ZeroVec(k: nat): (r: seq<nat>)
    ensures |r| == k && forall j :: 0 <= j < k ==> r[j] == 0
  {
    seq(k, j => 0)
  }

  ghost function Select(bases: seq<seq<nat>>, bits: Bits, k: nat): (r: seq<nat>)
    requires |bits| == |bases| && Widths(bases, k)
    ensures |r| == k
  {
    if |bases| == 0 then ZeroVec(k)
    else XorVec(if bits[0] then bases[0] else ZeroVec(k), Select(bases[1..], bits[1..], k))
  }

  lemma {:induction false} FlatVecXor(dims: seq<Dim>, a: seq<nat>, b: seq<nat>)
    requires |a| == |b| == |dims|
    ensures FlatVec(dims, XorVec(a, b)) == Xor(FlatVec(dims, a), FlatVec(dims, b))
  {
    if |dims| > 0 {
      assert XorVec(a, b)[1..] == XorVec(a[1..], b[1..]);
      FlatVecXor(dims[1..], a[1..], b[1..]);
      ToBitsXor(a[0], b[0], dims[0].bits);
    }
  }

  lemma {:induction false} FlatVecZero(dims: seq<Dim>)
    ensures FlatVec(dims, ZeroVec(|dims|)) == Zero(Total(dims))
  {
    if |dims| > 0 {
      assert ZeroVec(|dims|)[1..] == ZeroVec(|dims| - 1);
      FlatVecZero(dims[1..]);
      ToBitsZero(dims[0].bits);
    }
  }

  // Selecting and xor-ing vectors, seen bit by bit, is the dot product with a row.
  lemma {:induction false} SelectIsDot(dims: seq<Dim>, bases: seq<seq<nat>>, bits: Bits, r: nat)
    requires |bits| == |bases| && Widths(bases, |dims|)
    requires r < Total(dims)
    ensures FlatVec(dims, Select(bases, bits, |dims|))[r] == Dot(BitRow(dims, bases, r), bits)
  {
    FlatVecZero(dims);
    if |bases| > 0 {
      assert BitRow(dims, bases, r)[1..] == BitRow(dims, bases[1..], r);
      SelectIsDot(dims, bases[1..], bits[1..], r);
      FlatVecXor(dims, if bits[0] then bases[0] else ZeroVec(|dims|), Select(bases[1..], bits[1..], |dims|));
    }
  }

  // One in-dimension's contribution is the selection by the bits of its value.
  lemma {:induction false} DimValueIsSelect(bases: seq<seq<nat>>, v: nat, k: nat, j: nat)
    requires j < k && Widths(bases, k)
    ensures DimValue(bases, v, j) == Select(bases, ToBits(v, |bases|), k)[j]
  {
    if |bases| > 0 {
      assert ToBits(v, |bases|)[1..] == ToBits(v / 2, |bases| - 1);
      DimValueIsSelect(bases[1..], v / 2, k, j);
    }
  }

  lemma {:induction false} SelectAppend(a: seq<seq<nat>>, b: seq<seq<nat>>, p: Bits, q: Bits, k: nat, j: nat)
    requires |a| == |p| && |b| == |q| && j < k
    requires Widths(a, k) && Widths(b, k)
    ensures Select(a + b, p + q, k)[j] == XorInt(Select(a, p, k)[j], Select(b, q, k)[j])
  {
    if |a| == 0 {
      assert a + b == b && p + q == q;
      XorIntZero(Select(b, q, k)[j]);
    } else {
      assert (a + b)[1..] == a[1..] + b && (p + q)[1..] == p[1..] + q;
      SelectAppend(a[1..], b, p[1..], q, k, j);
      XorIntAssoc(if p[0] then a[0][j] else 0, Select(a[1..], p[1..], k)[j], Select(b, q, k)[j]);
    }
  }

  lemma {:induction false} OutValueIsSelect(ins: seq<InDim>, x: Coord, outs: seq<Dim>, j: nat)
    requires AllVectors(outs, ins) && Covers(InDims(ins), x) && j < |outs|
    requires Widths(FlatBases(ins), |outs|)
    ensures OutValue(ins, x, j) == Select(FlatBases(ins), Flat(InDims(ins), x), |outs|)[j]
  {
    if |ins| > 0 {
      var rest := ins[1..];
      assert InDims(ins)[1..] == InDims(rest);
      assert forall i :: 0 <= i < |rest| ==> InDims(rest)[i] == InDims(ins)[i + 1];
      var n := |ins[0].bases|;
      assert ins[0].bases == FlatBases(ins)[..n] && FlatBases(rest) == FlatBases(ins)[n..];
      OutValueIsSelect(rest, x, outs, j);
      DimValueIsSelect(ins[0].bases, x[ins[0].name], |outs|, j);
      SelectAppend(ins[0].bases, FlatBases(rest), ToBits(x[ins[0].name], |ins[0].bases|), Flat(InDims(rest), x), |outs|, j);
    }
  }

  // A coordinate flattens like the vector of its values.
  lemma {:induction false} FlatIsFlatVec(dims: seq<Dim>, x: Coord, v: seq<nat>)
    requires Covers(dims, x) && |v| == |dims|
    requires forall j :: 0 <= j < |dims| ==> x[dims[j].name] == v[j]
    ensures Flat(dims, x) == FlatVec(dims, v)
  {
    if |dims| > 0 {
      assert forall i :: 0 <= i < |dims| - 1 ==> dims[1..][i] == dims[i + 1];
      FlatIsFlatVec(dims[1..], x, v[1..]);
    }
  }

  // The bits of an image, for any sizes given to the out-dimensions.
  lemma ApplyAsBits(l: Layout, dims: seq<Dim>, x: Coord)
    requires WellFormed(l) && Covers(InDims(l.ins), x)
    requires |dims| == |l.outs| && forall j :: 0 <= j < |dims| ==> dims[j].name == l.outs[j].name
    ensures Covers(dims, Apply(l, x)) && Widths(FlatBases(l.ins), |dims|)
    ensures Flat(dims, Apply(l, x)) == MatVec(BitRows(dims, FlatBases(l.ins)), Flat(InDims(l.ins), x))
  {
    hide Dot, BitRows, FlatVec, Flat, FlatBases, OutValue, Select;
    var bases, bits := FlatBases(l.ins), Flat(InDims(l.ins), x);
    FlatWidths(l);
    var v := Select(bases, bits, |dims|);
    forall j | 0 <= j < |dims|
      ensures dims[j].name in Apply(l, x) && Apply(l, x)[dims[j].name] == v[j]
    {
      ApplyAt(l, x, j);
      OutValueIsSelect(l.ins, x, l.outs, j);
    }
    FlatIsFlatVec(dims, Apply(l, x), v);
    forall r | 0 <= r < Total(dims)
      ensures FlatVec(dims, v)[r] == Dot(BitRows(dims, bases)[r], bits)
    {
      SelectIsDot(dims, bases, bits, r);
    }
  }

  /** `apply` is multiplication by the layout's matrix, on flattened coordinates. */
  lemma ApplyIsMatVec(l: Layout, x: Coord)
    requires WellFormed(l) && Covers(InDims(l.ins), x)
    ensures Covers(l.outs, Apply(l, x))
    ensures Flat(l.outs, Apply(l, x)) == MatVec(MatrixOf(l), Flat(InDims(l.ins), x))
  {
    ApplyAsBits(l, l.outs, x);
  }
}
