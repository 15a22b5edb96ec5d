/** When a composition read off by invertAndCompose is correct
(include/triton/Tools/LinearLayout.h:639-672, lib/Tools/LinearLayout.cpp:843-955). */
module ComposeSpec {
  import opened F2Matrix
  import opened Words
  import opened Layout
  import opened LayoutMatrix
  import opened LayoutRank
  import opened Reshape
  import opened InvertMatrix

  // The total size of the in-dimensions, `1 << bits`, is an int32: more in bits overflow in the source.
  const MAX_IN_BITS: nat := 30

  // ---------- the columns read off, and what they compute ----------

  // If outer sends every column of `mc` to the same column of `ma`, it does so for all combinations.
  lemma {:induction false} ColumnsDecide(mb: Matrix, nb: nat, mc: Matrix, ma: Matrix, nr: nat, x: Bits, k: nat)
    requires IsMatrix(mb, nb) && IsMatrix(mc, nr) && IsMatrix(ma, nr) && |mc| == nb && |ma| == |mb|
    requires forall c :: 0 <= c < nr ==> MatVec(mb, Column(mc, nr, c)) == Column(ma, nr, c)
    requires |x| == nr && k <= nr && forall i :: k <= i < nr ==> !x[i]
    ensures MatVec(mb, MatVec(mc, x)) == MatVec(ma, x)
    decreases k
  {
    if k == 0 {
      assert x == Zero(nr);
      MatVecZero(mc, nr);
      MatVecZero(ma, nr);
      MatVecZero(mb, nb);
    } else {
      var y := x[k - 1 := false];
      ColumnsDecide(mb, nb, mc, ma, nr, y, k - 1);
      if x[k - 1] {
        AddColumn(mb, nb, mc, ma, nr, y, k - 1);
        assert x == Xor(y, Unit(nr, k - 1));
      } else {
        assert x == y;
      }
    }
  }

  lemma ColumnOfUnit(m: Matrix, cols: nat, c: nat)
    requires IsMatrix(m, cols) && c < cols
    ensures MatVec(m, Unit(cols, c)) == Column(m, cols, c)
  {
    MatVecUnit(m, cols, c);
  }

  lemma AddColumn(mb: Matrix, nb: nat, mc: Matrix, ma: Matrix, nr: nat, y: Bits, c: nat)
    requires IsMatrix(mb, nb) && IsMatrix(mc, nr) && IsMatrix(ma, nr) && |mc| == nb && |ma| == |mb|
    requires |y| == nr && c < nr && MatVec(mb, Column(mc, nr, c)) == Column(ma, nr, c)
    requires MatVec(mb, MatVec(mc, y)) == MatVec(ma, y)
    ensures MatVec(mb, MatVec(mc, Xor(y, Unit(nr, c)))) == MatVec(ma, Xor(y, Unit(nr, c)))
  {
    var e := Unit(nr, c);
    MatVecXor(mc, y, e);
    MatVecXor(ma, y, e);
    MatVecXor(mb, MatVec(mc, y), MatVec(mc, e));
    ColumnOfUnit(mc, nr, c);
    ColumnOfUnit(ma, nr, c);
  }

  // ---------- the flat layout and its reshapes ----------

  function FlatLayout(inName: Name, outName: Name, bits: nat, bases: seq<nat>): (l: Layout)
    ensures |l.ins| == 1 && |l.outs| == 1
  {
    Layout([InDim(inName, seq(|bases|, c requires 0 <= c < |bases| => [bases[c]]))], [Dim(outName, bits)])
  }

  lemma FlatLayoutMatrix(inName: Name, outName: Name, bits: nat, bases: seq<nat>)
    requires forall c :: 0 <= c < |bases| ==> bases[c] < Pow2(bits)
    ensures var l := FlatLayout(inName, outName, bits, bases);
            && WellFormed(l) && Total(InDims(l.ins)) == |bases| && Total(l.outs) == bits
            && forall c :: 0 <= c < |bases| ==> Column(MatrixOf(l), |bases|, c) == ToBits(bases[c], bits)
  {
    var l := FlatLayout(inName, outName, bits, bases);
    assert FlatBases(l.ins) == l.ins[0].bases;
    assert InDims(l.ins)[1..] == [] && l.outs[1..] == [];
    forall c | 0 <= c < |bases|
      ensures Column(MatrixOf(l), |bases|, c) == ToBits(bases[c], bits)
    {
      assert FlatVec(l.outs, [bases[c]]) == ToBits(bases[c], bits);
      forall r | 0 <= r < bits
        ensures MatrixOf(l)[r][c] == ToBits(bases[c], bits)[r]
      {
        MatrixEntry(l, r, c);
      }
    }
  }

  lemma {:induction false} RegroupWidths(flat: seq<seq<nat>>, dims: seq<Dim>, k: nat)
    requires |flat| == Total(dims) && Widths(flat, k)
    ensures InWidths(Regroup(flat, dims), k)
  {
    if |dims| > 0 {
      var n := dims[0].bits;
      WidthsSplit(flat, n, k);
      RegroupWidths(flat[n..], dims[1..], k);
      hide Widths;
      ConsWidths(Regroup(flat, dims)[0], Regroup(flat[n..], dims[1..]), k);
    }
  }

  lemma WidthsSplit(flat: seq<seq<nat>>, n: nat, k: nat)
    requires Widths(flat, k) && n <= |flat|
    ensures Widths(flat[..n], k) && Widths(flat[n..], k)
  {
  }

  lemma ConsWidths(first: InDim, rest: seq<InDim>, k: nat)
    requires Widths(first.bases, k) && InWidths(rest, k)
    ensures InWidths([first] + rest, k)
  {
    hide Widths;
  }

  /** The layout read off: `self`'s in-dimensions, `outer`'s in-dimensions as out-dimensions. */
  function Unflatten(inName: Name, outName: Name, bases: seq<nat>, ins: seq<Dim>, outs: seq<Dim>): (l: Layout)
    requires Total(ins) == |bases|
    ensures InDims(l.ins) == ins && l.outs == outs
  {
    var flat := FlatLayout(inName, outName, Total(outs), bases);
    assert FlatBases(flat.ins) == flat.ins[0].bases;
    assert InDims(flat.ins)[1..] == [];
    RegroupWidths(FlatBases(flat.ins), ins, 1);
    ReshapeOuts(ReshapeIns(flat, ins), outs)
  }

  lemma UnflattenMatrix(inName: Name, outName: Name, bases: seq<nat>, ins: seq<Dim>, outs: seq<Dim>)
    requires Total(ins) == |bases| && Distinct(ins) && Distinct(outs)
    requires forall c :: 0 <= c < |bases| ==> bases[c] < Pow2(Total(outs))
    ensures var l := Unflatten(inName, outName, bases, ins, outs);
            && WellFormed(l)
            && forall c :: 0 <= c < |bases| ==> Column(MatrixOf(l), |bases|, c) == ToBits(bases[c], Total(outs))
  {
    var flat := FlatLayout(inName, outName, Total(outs), bases);
    FlatLayoutMatrix(inName, outName, Total(outs), bases);
    ReshapeInsKeeps(flat, ins);
    ReshapeOutsKeeps(ReshapeIns(flat, ins), outs);
  }

  // ---------- specification ----------

  // What the source asserts of its arguments.
  ghost predicate Callable(self: Layout, outer: Layout) {
    && WellFormed(self) && WellFormed(outer)
    && |self.ins| > 0 && |self.outs| > 0
    && Names(self.outs) == Names(outer.outs)
    && (forall j :: 0 <= j < |self.outs| ==> self.outs[j].bits <= Reordered(outer.outs, self.outs)[j].bits)
    && Surjective(outer)
    && Total(InDims(self.ins)) <= MAX_IN_BITS && Total(InDims(outer.ins)) <= MAX_IN_BITS
  }

  ghost function OuterInOrder(self: Layout, outer: Layout): (t: Layout)
    requires Callable(self, outer)
    ensures WellFormed(t) && InDims(t.ins) == InDims(outer.ins) && t.outs == Reordered(outer.outs, self.outs)
    ensures Names(t.outs) == Names(outer.outs)
  {
    TransposedWellFormed(outer, self.outs);
    TransposeOuts(outer, self.outs)
  }

  ghost function OuterMatrix(self: Layout, outer: Layout): (m: Matrix)
    requires Callable(self, outer)
    ensures IsMatrix(m, Total(InDims(outer.ins)))
  {
    MatrixOf(OuterInOrder(self, outer))
  }

  /** The leading bases of the padded outer layout, as many as it has out bits, are independent. */
  ghost predicate LeadingBasesIndependent(self: Layout, outer: Layout)
    requires Callable(self, outer)
  {
    LeadingColumnsIndependent(OuterMatrix(self, outer), Total(InDims(outer.ins)))
  }

  ghost predicate IsZeroVector(v: seq<nat>) {
    forall j :: 0 <= j < |v| ==> v[j] == 0
  }

  /** Every basis vector of `self` occupies the same bits under `outer`'s sizes as under its own,
      and if `outer` has more out bits, no basis vector of `self` is zero. */
  ghost predicate Aligned(self: Layout, outer: Layout)
    requires Callable(self, outer)
  {
    var small, large := self.outs, Reordered(outer.outs, self.outs);
    && Total(small) <= Total(large)
    && forall c :: 0 <= c < |FlatBases(self.ins)| ==> AlignedVector(small, large, FlatBases(self.ins)[c])
  }

  ghost predicate AlignedVector(small: seq<Dim>, large: seq<Dim>, v: seq<nat>)
    requires Total(small) <= Total(large)
  {
    && |v| == |small| == |large|
    && FlatVec(large, v) == FlatVec(small, v) + Zero(Total(large) - Total(small))
    && (Total(small) < Total(large) ==> !IsZeroVector(v))
  }

  // outer(composed(x)) == self(x)
  ghost predicate CorrectAt(self: Layout, outer: Layout, composed: Layout, x: Coord)
    requires WellFormed(self) && WellFormed(outer) && WellFormed(composed)
    requires InDims(composed.ins) == InDims(self.ins) && composed.outs == InDims(outer.ins)
    requires Covers(InDims(self.ins), x)
  {
    ApplyInRange(composed, x);
    Apply(outer, Apply(composed, x)) == Apply(self, x)
  }

  ghost predicate Correct(self: Layout, outer: Layout, composed: Layout)
    requires WellFormed(self) && WellFormed(outer) && WellFormed(composed)
    requires InDims(composed.ins) == InDims(self.ins) && composed.outs == InDims(outer.ins)
  {
    forall x: Coord :: InRange(InDims(self.ins), x) ==> CorrectAt(self, outer, composed, x)
  }

  lemma {:induction false} TotalMonotone(small: seq<Dim>, large: seq<Dim>)
    requires |small| == |large| && forall j :: 0 <= j < |small| ==> small[j].bits <= large[j].bits
    ensures Total(small) <= Total(large)
    ensures Total(small) == Total(large) ==> forall j :: 0 <= j < |small| ==> small[j].bits == large[j].bits
  {
    if |small| > 0 {
      TotalMonotone(small[1..], large[1..]);
      assert forall j :: 0 < j < |small| ==> small[j] == small[1..][j - 1] && large[j] == large[1..][j - 1];
    }
  }

  lemma {:induction false} SameBitsSameFlat(a: seq<Dim>, b: seq<Dim>, v: seq<nat>)
    requires |a| == |b| == |v| && forall j :: 0 <= j < |a| ==> a[j].bits == b[j].bits
    ensures Total(a) == Total(b) && FlatVec(a, v) == FlatVec(b, v)
  {
    if |a| > 0 {
      SameBitsSameFlat(a[1..], b[1..], v[1..]);
    }
  }

  /** Layouts with equal out-dimension sizes are aligned. */
  lemma EqualSizesAligned(self: Layout, outer: Layout)
    requires Callable(self, outer)
    requires forall j :: 0 <= j < |self.outs| ==> self.outs[j].bits == Reordered(outer.outs, self.outs)[j].bits
    ensures Aligned(self, outer)
  {
    var large := Reordered(outer.outs, self.outs);
    FlatWidths(self);
    forall c | 0 <= c < |FlatBases(self.ins)|
      ensures Total(self.outs) == Total(large) && AlignedVector(self.outs, large, FlatBases(self.ins)[c])
    {
      SameBitsSameFlat(self.outs, large, FlatBases(self.ins)[c]);
    }
    SameBitsSameFlat(self.outs, large, ZeroVec(|large|));
  }

  // ---------- when the composition is correct ----------

  // The flattened bits of `self`'s images, under the sizes of `outer`.
  ghost function SelfBits(self: Layout, outer: Layout): (w: Matrix)
    requires Callable(self, outer)
    ensures IsMatrix(w, Total(InDims(self.ins))) && |w| == Total(Reordered(outer.outs, self.outs))
  {
    FlatWidths(self);
    BitRows(Reordered(outer.outs, self.outs), FlatBases(self.ins))
  }

  ghost function SelfLifted(self: Layout, outer: Layout): (w: Matrix)
    requires Callable(self, outer)
    ensures IsMatrix(w, Total(InDims(self.ins))) && |w| == Total(Reordered(outer.outs, self.outs))
  {
    TotalMonotone(self.outs, Reordered(outer.outs, self.outs));
    Lift(MatrixOf(self), Total(InDims(self.ins)), Total(Reordered(outer.outs, self.outs)))
  }

  // Composed columns are preimages of the columns of the lifted matrix.
  ghost predicate Inverts(self: Layout, outer: Layout, composed: Layout)
    requires Callable(self, outer)
  {
    && WellFormed(composed) && InDims(composed.ins) == InDims(self.ins) && composed.outs == InDims(outer.ins)
    && forall c :: 0 <= c < Total(InDims(self.ins)) ==>
         MatVec(OuterMatrix(self, outer), Column(MatrixOf(composed), Total(InDims(self.ins)), c))
         == Column(SelfLifted(self, outer), Total(InDims(self.ins)), c)
  }

  lemma ComposedBits(self: Layout, outer: Layout, composed: Layout, x: Coord)
    requires Callable(self, outer) && Inverts(self, outer, composed) && InRange(InDims(self.ins), x)
    ensures Covers(InDims(outer.ins), Apply(composed, x))
    ensures var y := Apply(outer, Apply(composed, x));
            && InRange(Reordered(outer.outs, self.outs), y)
            && Flat(Reordered(outer.outs, self.outs), y) == MatVec(SelfLifted(self, outer), Flat(InDims(self.ins), x))
  {
    var t, z := OuterInOrder(self, outer), Apply(composed, x);
    ApplyInRange(composed, x);
    TransposeOutsKeeps(outer, self.outs, z);
    ApplyInRange(t, z);
    ApplyIsMatVec(composed, x);
    ApplyIsMatVec(t, z);
    ColumnsDecide(OuterMatrix(self, outer), Total(InDims(outer.ins)), MatrixOf(composed), SelfLifted(self, outer),
                  Total(InDims(self.ins)), Flat(InDims(self.ins), x), Total(InDims(self.ins)));
  }

  lemma ImageFits(self: Layout, outer: Layout, x: Coord)
    requires Callable(self, outer) && InRange(InDims(self.ins), x)
    ensures Covers(InDims(self.ins), x) && InRange(Reordered(outer.outs, self.outs), Apply(self, x))
  {
    hide Flat, Apply, Surjective, Total, Distinct;
    var large := Reordered(outer.outs, self.outs);
    ApplyInRange(self, x);
    assert SameNamesLarger(self.outs, large);
    WiderRange(self.outs, large, Apply(self, x));
  }

  ghost predicate SameNamesLarger(a: seq<Dim>, b: seq<Dim>) {
    |a| == |b| && forall j :: 0 <= j < |a| ==> a[j].name == b[j].name && a[j].bits <= b[j].bits
  }

  lemma WiderRange(a: seq<Dim>, b: seq<Dim>, y: Coord)
    requires SameNamesLarger(a, b) && InRange(a, y)
    ensures InRange(b, y)
  {
    SameNames(b, a);
    forall j | 0 <= j < |b| ensures b[j].name in y && y[b[j].name] < Pow2(b[j].bits) {
      if a[j].bits < b[j].bits {
        Pow2Increases(a[j].bits, b[j].bits);
      }
    }
  }

  lemma SelfBitsOf(self: Layout, outer: Layout, x: Coord)
    requires Callable(self, outer) && InRange(InDims(self.ins), x)
    ensures InRange(Reordered(outer.outs, self.outs), Apply(self, x))
    ensures Flat(Reordered(outer.outs, self.outs), Apply(self, x)) == MatVec(SelfBits(self, outer), Flat(InDims(self.ins), x))
  {
    hide Flat, Apply, MatVec, Surjective, InRange;
    ImageFits(self, outer, x);
    ApplyAsBits(self, Reordered(outer.outs, self.outs), x);
  }

  // At one coordinate, correctness compares the two matrices on its bits.
  lemma CorrectAtBits(self: Layout, outer: Layout, composed: Layout, x: Coord)
    requires Callable(self, outer) && Inverts(self, outer, composed) && InRange(InDims(self.ins), x)
    ensures CorrectAt(self, outer, composed, x) <==>
            MatVec(SelfLifted(self, outer), Flat(InDims(self.ins), x)) == MatVec(SelfBits(self, outer), Flat(InDims(self.ins), x))
  {
    var large := Reordered(outer.outs, self.outs);
    ComposedBits(self, outer, composed, x);
    SelfBitsOf(self, outer, x);
    var y, z := Apply(outer, Apply(composed, x)), Apply(self, x);
    if Flat(large, y) == Flat(large, z) {
      FlatInjective(large, y, z);
    }
  }

  lemma CorrectIffSameMatrix(self: Layout, outer: Layout, composed: Layout)
    requires Callable(self, outer) && Inverts(self, outer, composed)
    ensures Correct(self, outer, composed) <==> SelfLifted(self, outer) == SelfBits(self, outer)
  {
    var ins, a, b := InDims(self.ins), SelfLifted(self, outer), SelfBits(self, outer);
    if a == b {
      forall x: Coord | InRange(ins, x)
        ensures CorrectAt(self, outer, composed, x)
      {
        CorrectAtBits(self, outer, composed, x);
      }
    }
    if Correct(self, outer, composed) {
      forall c | 0 <= c < Total(ins)
        ensures Column(a, Total(ins), c) == Column(b, Total(ins), c)
      {
        var x := Unflat(ins, Unit(Total(ins), c));
        FlatUnflat(ins, Unit(Total(ins), c));
        assert CorrectAt(self, outer, composed, x);
        CorrectAtBits(self, outer, composed, x);
        ColumnOfUnit(a, Total(ins), c);
        ColumnOfUnit(b, Total(ins), c);
      }
      SameColumns(a, b, Total(ins));
    }
  }

  lemma SameColumns(a: Matrix, b: Matrix, cols: nat)
    requires IsMatrix(a, cols) && IsMatrix(b, cols) && |a| == |b|
    requires forall c :: 0 <= c < cols ==> Column(a, cols, c) == Column(b, cols, c)
    ensures a == b
  {
    forall r | 0 <= r < |a|
      ensures a[r] == b[r]
    {
      forall c | 0 <= c < cols
        ensures a[r][c] == b[r][c]
      {
        assert Column(a, cols, c)[r] == Column(b, cols, c)[r];
      }
    }
  }

  lemma BitRowsColumn(dims: seq<Dim>, bases: seq<seq<nat>>, c: nat)
    requires Widths(bases, |dims|) && c < |bases|
    ensures Column(BitRows(dims, bases), |bases|, c) == FlatVec(dims, bases[c])
  {
    forall r | 0 <= r < Total(dims)
      ensures BitRows(dims, bases)[r][c] == FlatVec(dims, bases[c])[r]
    {
      assert BitRows(dims, bases)[r] == BitRow(dims, bases, r);
    }
  }

  lemma {:induction false} ZeroVectorFlat(dims: seq<Dim>, v: seq<nat>)
    requires IsVector(dims, v)
    ensures IsZeroVector(v) <==> FlatVec(dims, v) == Zero(Total(dims))
  {
    if IsZeroVector(v) {
      assert v == ZeroVec(|dims|);
      FlatVecZero(dims);
    } else {
      var j :| 0 <= j < |v| && v[j] != 0;
      NonZeroFlat(dims, v, j);
    }
  }

  lemma {:induction false} NonZeroFlat(dims: seq<Dim>, v: seq<nat>, j: nat)
    requires IsVector(dims, v) && j < |v| && v[j] != 0
    ensures FlatVec(dims, v) != Zero(Total(dims))
  {
    var k := dims[0].bits;
    assert FlatVec(dims, v)[..k] == ToBits(v[0], k) && FlatVec(dims, v)[k..] == FlatVec(dims[1..], v[1..]);
    if j == 0 {
      ToBitsZero(k);
      FromToBits(v[0], k);
      FromToBits(0, k);
      assert Zero(Total(dims))[..k] == Zero(k);
    } else {
      assert IsVector(dims[1..], v[1..]);
      NonZeroFlat(dims[1..], v[1..], j - 1);
      assert Zero(Total(dims))[k..] == Zero(Total(dims[1..]));
    }
  }

  // Column c of self's matrix is zero exactly if its basis vector is.
  lemma ZeroColumnIsZeroVector(self: Layout, c: nat)
    requires WellFormed(self) && c < |FlatBases(self.ins)|
    ensures |FlatBases(self.ins)[c]| == |self.outs|
    ensures ZeroColumn(MatrixOf(self), Total(InDims(self.ins)), c) <==> IsZeroVector(FlatBases(self.ins)[c])
    ensures Column(MatrixOf(self), Total(InDims(self.ins)), c) == FlatVec(self.outs, FlatBases(self.ins)[c])
  {
    FlatWidths(self);
    FlatBasesVectors(self.outs, self.ins);
    var v, m := FlatBases(self.ins)[c], MatrixOf(self);
    assert IsVector(self.outs, v);
    BitRowsColumn(self.outs, FlatBases(self.ins), c);
    ZeroVectorFlat(self.outs, v);
    var col := Column(m, Total(InDims(self.ins)), c);
    assert col == Zero(|m|) ==> forall r :: 0 <= r < |m| ==> col[r] == m[r][c];
    if ZeroColumn(m, Total(InDims(self.ins)), c) {
      assert col == Zero(|m|);
    }
  }

  lemma AlignedColumn(self: Layout, outer: Layout, c: nat)
    requires Callable(self, outer) && c < |FlatBases(self.ins)|
    requires Total(self.outs) <= Total(Reordered(outer.outs, self.outs))
    requires AlignedVector(self.outs, Reordered(outer.outs, self.outs), FlatBases(self.ins)[c])
    ensures Column(SelfLifted(self, outer), Total(InDims(self.ins)), c) == Column(SelfBits(self, outer), Total(InDims(self.ins)), c)
  {
    var large := Reordered(outer.outs, self.outs);
    FlatWidths(self);
    ZeroColumnIsZeroVector(self, c);
    LiftColumn(MatrixOf(self), Total(InDims(self.ins)), Total(large), c);
    BitRowsColumn(large, FlatBases(self.ins), c);
    var col, own := Column(SelfLifted(self, outer), Total(InDims(self.ins)), c), Column(MatrixOf(self), Total(InDims(self.ins)), c);
    if Total(self.outs) == Total(large) {
      assert col == own + Zero(0);
    }
  }

  lemma SameColumnAligned(self: Layout, outer: Layout, c: nat)
    requires Callable(self, outer) && c < |FlatBases(self.ins)|
    requires Total(self.outs) <= Total(Reordered(outer.outs, self.outs))
    requires SelfLifted(self, outer) == SelfBits(self, outer)
    ensures AlignedVector(self.outs, Reordered(outer.outs, self.outs), FlatBases(self.ins)[c])
  {
    var small, large, nr := self.outs, Reordered(outer.outs, self.outs), Total(InDims(self.ins));
    FlatWidths(self);
    ZeroColumnIsZeroVector(self, c);
    LiftColumn(MatrixOf(self), nr, Total(large), c);
    BitRowsColumn(large, FlatBases(self.ins), c);
    if ZeroColumn(MatrixOf(self), nr, c) {
      var v := FlatBases(self.ins)[c];
      assert v == ZeroVec(|large|) == ZeroVec(|small|);
      FlatVecZero(large);
      FlatVecZero(small);
      if Total(small) < Total(large) {
        var d :| 0 <= d < nr && ZeroColumn(MatrixOf(self), nr, d) && SelfLifted(self, outer)[Total(small)][d];
        ZeroColumnIsZeroVector(self, d);
        BitRowsColumn(large, FlatBases(self.ins), d);
        NotZeroBit(large, FlatBases(self.ins)[d], Column(SelfBits(self, outer), nr, d), Total(small));
      }
    }
  }

  // A zero basis vector has no 1 among its bits.
  lemma NotZeroBit(dims: seq<Dim>, v: seq<nat>, col: Bits, r: nat)
    requires |v| == |dims| && IsZeroVector(v) && col == FlatVec(dims, v) && r < |col|
    ensures !col[r]
  {
    assert v == ZeroVec(|dims|);
    FlatVecZero(dims);
  }

  /** The composition read off is correct at every coordinate if and only if `self` is aligned. */
  lemma CorrectIffAligned(self: Layout, outer: Layout, composed: Layout)
    requires Callable(self, outer) && Inverts(self, outer, composed)
    ensures Correct(self, outer, composed) <==> Aligned(self, outer)
  {
    TotalMonotone(self.outs, Reordered(outer.outs, self.outs));
    CorrectIffSameMatrix(self, outer, composed);
    if Aligned(self, outer) {
      forall c | 0 <= c < Total(InDims(self.ins))
        ensures Column(SelfLifted(self, outer), Total(InDims(self.ins)), c) == Column(SelfBits(self, outer), Total(InDims(self.ins)), c)
      {
        AlignedColumn(self, outer, c);
      }
      SameColumns(SelfLifted(self, outer), SelfBits(self, outer), Total(InDims(self.ins)));
    }
    if SelfLifted(self, outer) == SelfBits(self, outer) {
      forall c | 0 <= c < |FlatBases(self.ins)|
        ensures AlignedVector(self.outs, Reordered(outer.outs, self.outs), FlatBases(self.ins)[c])
      {
        SameColumnAligned(self, outer, c);
      }
    }
  }
}
