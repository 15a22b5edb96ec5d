/** Which of the possible answers LinearLayout::invertAndCompose gives (lib/Tools/LinearLayout.cpp:862-888):
where several offsets hold one index, the bases of the outer layout are zero, and zero bases of this
layout are sent to them one by one. */
module ComposeChoice {
  import opened F2Matrix
  import opened Layout
  import opened LayoutMatrix
  import opened LayoutRank
  import opened Reshape
  import opened FreeVariables
  import opened InvertMatrix
  import opened ComposeSpec

  // ---------- zero bases ----------

  /** The zero bases of a layout before the c-th in bit, in order. */
  ghost function ZeroBases(l: Layout, c: nat): (z: seq<nat>)
    requires c <= |FlatBases(l.ins)|
    ensures forall i :: 0 <= i < |z| ==> z[i] < c && IsZeroVector(FlatBases(l.ins)[z[i]])
  {
    if c == 0 then [] else ZeroBases(l, c - 1) + if IsZeroVector(FlatBases(l.ins)[c - 1]) then [c - 1] else []
  }

  lemma BasesCount(l: Layout)
    requires WellFormed(l)
    ensures |FlatBases(l.ins)| == Total(InDims(l.ins))
    ensures forall c :: 0 <= c < |FlatBases(l.ins)| ==> IsVector(l.outs, FlatBases(l.ins)[c])
  {
    FlatBasesVectors(l.outs, l.ins);
  }

  lemma ZeroColumnIff(l: Layout, c: nat)
    requires WellFormed(l) && c < Total(InDims(l.ins))
    ensures |FlatBases(l.ins)| == Total(InDims(l.ins))
    ensures ZeroColumn(MatrixOf(l), Total(InDims(l.ins)), c) <==> IsZeroVector(FlatBases(l.ins)[c])
  {
    hide FlatBases, FlatVec;
    BasesCount(l);
    FlatWidths(l);
    BitRowsColumn(l.outs, FlatBases(l.ins), c);
    ZeroVectorFlat(l.outs, FlatBases(l.ins)[c]);
    ZeroColumnOf(MatrixOf(l), Total(InDims(l.ins)), c);
  }

  lemma ZeroColumnOf(m: Matrix, cols: nat, c: nat)
    requires IsMatrix(m, cols) && c < cols
    ensures ZeroColumn(m, cols, c) <==> Column(m, cols, c) == Zero(|m|)
  {
    assert forall r :: 0 <= r < |m| ==> Column(m, cols, c)[r] == m[r][c];
  }

  lemma {:induction false} ZeroColumnsAre(l: Layout, c: nat)
    requires WellFormed(l) && c <= Total(InDims(l.ins))
    ensures |FlatBases(l.ins)| == Total(InDims(l.ins))
    ensures ZeroColumns(MatrixOf(l), Total(InDims(l.ins)), c) == ZeroBases(l, c)
  {
    hide FlatBases, MatrixOf, ZeroColumn, IsZeroVector, WellFormed, IsVector, Total, InDims;
    BasesCount(l);
    if c > 0 {
      ZeroColumnsAre(l, c - 1);
      ZeroColumnIff(l, c - 1);
    }
  }

  // ---------- reordering the out-dimensions keeps zero bases ----------

  lemma {:induction false} PermutedFlat(outs: seq<Dim>, order: seq<Dim>, ins: seq<InDim>, t: seq<InDim>, c: nat)
    requires Names(order) == Names(outs) && InWidths(ins, |outs|) && |t| == |ins|
    requires forall d :: 0 <= d < |ins| ==> t[d].bases == PermuteBases(outs, order, ins[d].bases)
    requires c < |FlatBases(ins)|
    ensures |FlatBases(t)| == |FlatBases(ins)| && |FlatBases(ins)[c]| == |outs|
    ensures FlatBases(t)[c] == PermuteVec(outs, order, FlatBases(ins)[c])
  {
    PermutedCount(outs, order, ins, t);
    var n := |ins[0].bases|;
    assert Widths(ins[0].bases, |outs|);
    if c >= n {
      PermutedFlat(outs, order, ins[1..], t[1..], c - n);
    }
  }

  lemma {:induction false} PermutedCount(outs: seq<Dim>, order: seq<Dim>, ins: seq<InDim>, t: seq<InDim>)
    requires Names(order) == Names(outs) && InWidths(ins, |outs|) && |t| == |ins|
    requires forall d :: 0 <= d < |ins| ==> t[d].bases == PermuteBases(outs, order, ins[d].bases)
    ensures |FlatBases(t)| == |FlatBases(ins)|
  {
    if |ins| > 0 {
      PermutedCount(outs, order, ins[1..], t[1..]);
    }
  }

  lemma PermutedZero(outs: seq<Dim>, order: seq<Dim>, v: seq<nat>)
    requires Names(order) == Names(outs) && |v| == |outs| && Distinct(outs)
    ensures IsZeroVector(PermuteVec(outs, order, v)) <==> IsZeroVector(v)
  {
    var p := PermuteVec(outs, order, v);
    if IsZeroVector(p) {
      forall j | 0 <= j < |v| ensures v[j] == 0 {
        assert outs[j].name in Names(order);
        var i :| 0 <= i < |order| && order[i].name == outs[j].name;
        assert Index(outs, order[i].name) == j;
        assert p[i] == v[j];
      }
    }
  }

  lemma {:induction false} TransposedZeroBases(l: Layout, order: seq<Dim>, c: nat)
    requires WellFormed(l) && Distinct(order) && Names(order) == Names(l.outs) && c <= |FlatBases(l.ins)|
    ensures InWidths(l.ins, |l.outs|) && |FlatBases(TransposeOuts(l, order).ins)| == |FlatBases(l.ins)|
    ensures ZeroBases(TransposeOuts(l, order), c) == ZeroBases(l, c)
  {
    hide FlatBases, IsZeroVector;
    WellFormedWidths(l);
    var t := TransposeOuts(l, order);
    PermutedCount(l.outs, order, l.ins, t.ins);
    if c > 0 {
      TransposedZeroBases(l, order, c - 1);
      PermutedFlat(l.outs, order, l.ins, t.ins, c - 1);
      PermutedZero(l.outs, order, FlatBases(l.ins)[c - 1]);
    }
  }

  // ---------- the choice ----------

  // How many of this layout's zero bases count as out bits that only `outer` has.
  ghost function Extra(self: Layout, outer: Layout): nat
    requires Callable(self, outer)
  {
    TotalMonotone(self.outs, Reordered(outer.outs, self.outs));
    Total(Reordered(outer.outs, self.outs)) - Total(self.outs)
  }

  // Bit z of the image of the c-th in bit.
  ghost predicate ImageBit(comp: Layout, c: nat, z: nat)
    requires WellFormed(comp) && c < Total(InDims(comp.ins)) && z < Total(comp.outs)
  {
    FlatWidths(comp);
    BasesCount(comp);
    FlatVec(comp.outs, FlatBases(comp.ins)[c])[z]
  }

  ghost predicate Composes(self: Layout, outer: Layout, comp: Layout) {
    Callable(self, outer) && WellFormed(comp) && InDims(comp.ins) == InDims(self.ins) && comp.outs == InDims(outer.ins)
  }

  ghost predicate SendsZero(self: Layout, outer: Layout, comp: Layout, c: nat, k: nat)
    requires Composes(self, outer, comp)
  {
    Countable(self, outer);
    var zs, zo := ZeroBases(self, |FlatBases(self.ins)|), ZeroBases(outer, |FlatBases(outer.ins)|);
    c < Total(InDims(self.ins)) && k < |zo| ==>
      (ImageBit(comp, c, zo[k]) <==> Extra(self, outer) + k < |zs| && zs[Extra(self, outer) + k] == c)
  }

  ghost predicate Ends(self: Layout, outer: Layout, comp: Layout, c: nat, i: nat)
    requires Composes(self, outer, comp)
  {
    Countable(self, outer);
    var rows := Total(Reordered(outer.outs, self.outs)) + |ZeroBases(outer, |FlatBases(outer.ins)|)|;
    c < Total(InDims(self.ins)) && rows <= i < Total(comp.outs) ==> !ImageBit(comp, c, i)
  }

  /** The image of a basis has a 1 at the k-th zero basis of `outer` exactly if it is the k-th zero
      basis of `self` (after those that stand for out bits that only `outer` has); and it has none
      past the bits that the padded outer layout has rows for. */
  ghost predicate Chosen(self: Layout, outer: Layout, comp: Layout)
    requires Composes(self, outer, comp)
  {
    && (forall c: nat, k: nat :: SendsZero(self, outer, comp, c, k))
    && forall c: nat, i: nat :: Ends(self, outer, comp, c, i)
  }

  lemma Countable(self: Layout, outer: Layout)
    requires Callable(self, outer)
    ensures |FlatBases(self.ins)| == Total(InDims(self.ins)) && |FlatBases(outer.ins)| == Total(InDims(outer.ins))
  {
    BasesCount(self);
    BasesCount(outer);
  }

  lemma ImageBitIs(comp: Layout, c: nat, z: nat)
    requires WellFormed(comp) && c < Total(InDims(comp.ins)) && z < Total(comp.outs)
    ensures ImageBit(comp, c, z) == Column(MatrixOf(comp), Total(InDims(comp.ins)), c)[z]
  {
    FlatWidths(comp);
    BasesCount(comp);
    BitRowsColumn(comp.outs, FlatBases(comp.ins), c);
  }

  // The zero columns of the two matrices that are eliminated.
  lemma RunZeros(self: Layout, outer: Layout)
    requires Callable(self, outer)
    ensures |FlatBases(self.ins)| == Total(InDims(self.ins)) && |FlatBases(outer.ins)| == Total(InDims(outer.ins))
    ensures ZeroColumns(OuterMatrix(self, outer), Total(InDims(outer.ins)), Total(InDims(outer.ins))) ==
            ZeroBases(outer, |FlatBases(outer.ins)|)
    ensures ZeroColumns(SelfLifted(self, outer), Total(InDims(self.ins)), Total(InDims(self.ins))) ==
            Drop(ZeroBases(self, |FlatBases(self.ins)|), Extra(self, outer))
  {
    hide ZeroColumns, ZeroBases, FlatBases, Lift, MatrixOf;
    Countable(self, outer);
    TotalMonotone(self.outs, Reordered(outer.outs, self.outs));
    TransposedZeroBases(outer, self.outs, |FlatBases(outer.ins)|);
    ZeroColumnsAre(OuterInOrder(self, outer), Total(InDims(outer.ins)));
    ZeroColumnsAre(self, Total(InDims(self.ins)));
    LiftZeroColumns(MatrixOf(self), Total(InDims(self.ins)), Total(Reordered(outer.outs, self.outs)), Total(InDims(self.ins)));
  }

  // The run's answers are the columns of the layout.
  ghost predicate ReadFrom(self: Layout, outer: Layout, run: Run, comp: Layout) {
    && Callable(self, outer) && run.Passed()
    && run.outer == OuterMatrix(self, outer) && run.self == SelfLifted(self, outer)
    && run.nl == Total(InDims(outer.ins)) && run.nr == Total(InDims(self.ins))
    && WellFormed(comp) && InDims(comp.ins) == InDims(self.ins) && comp.outs == InDims(outer.ins)
    && forall c :: 0 <= c < run.nr ==> Column(MatrixOf(comp), run.nr, c) == run.Answer(c)
  }

  lemma ChoosesAt(self: Layout, outer: Layout, run: Run, comp: Layout, c: nat, k: nat)
    requires ReadFrom(self, outer, run, comp)
    ensures Composes(self, outer, comp) && SendsZero(self, outer, comp, c, k)
  {
    hide ZeroColumns, ZeroBases, FlatBases, Lift, MatrixOf, ImageBit, run.Passed, run.Answer, Extra, Column, Callable, WellFormed;
    RunZeros(self, outer);
    if c < Total(InDims(self.ins)) && k < |ZeroBases(outer, |FlatBases(outer.ins)|)| {
      run.AnswerAtZero(c, k);
      ImageBitIs(comp, c, ZeroBases(outer, |FlatBases(outer.ins)|)[k]);
    }
  }

  lemma EndsAt(self: Layout, outer: Layout, run: Run, comp: Layout, c: nat, i: nat)
    requires ReadFrom(self, outer, run, comp)
    ensures Composes(self, outer, comp) && Ends(self, outer, comp, c, i)
  {
    hide ZeroColumns, ZeroBases, FlatBases, Lift, MatrixOf, ImageBit, run.Passed, run.Answer, Extra, Column, Callable, WellFormed;
    RunZeros(self, outer);
    RunRows(self, outer, run);
    if c < run.nr && run.N() <= i < run.nl {
      run.AnswerEnds(c, i);
      ImageBitIs(comp, c, i);
    }
  }

  /** The columns read off make the choice. */
  lemma AnswersChoose(self: Layout, outer: Layout, run: Run, comp: Layout)
    requires ReadFrom(self, outer, run, comp)
    ensures Composes(self, outer, comp) && Chosen(self, outer, comp)
  {
    hide SendsZero, Ends, ReadFrom;
    ChoosesAt(self, outer, run, comp, 0, 0);
    forall c: nat, k: nat ensures SendsZero(self, outer, comp, c, k) {
      ChoosesAt(self, outer, run, comp, c, k);
    }
    forall c: nat, i: nat ensures Ends(self, outer, comp, c, i) {
      EndsAt(self, outer, run, comp, c, i);
    }
  }

  lemma RunRows(self: Layout, outer: Layout, run: Run)
    requires Callable(self, outer) && run.Shaped()
    requires run.outer == OuterMatrix(self, outer) && run.nl == Total(InDims(outer.ins))
    ensures run.N() == Total(Reordered(outer.outs, self.outs)) + |ZeroColumns(run.outer, run.nl, run.nl)|
  {
    PaddedSize(run.outer, run.nl);
  }

  // ---------- there is no other such answer ----------

  // A vector that outer's matrix, its zero columns and the rest send to nothing is nothing.
  lemma NothingElse(m: Matrix, cols: nat, v: Bits)
    requires IsMatrix(m, cols) && LeadingColumnsIndependent(m, cols) && |v| == cols
    requires MatVec(m, v) == Zero(|m|)
    requires forall k :: 0 <= k < |ZeroColumns(m, cols, cols)| ==> !v[ZeroColumns(m, cols, cols)[k]]
    requires forall i :: |m| + |ZeroColumns(m, cols, cols)| <= i < cols ==> !v[i]
    ensures v == Zero(cols)
  {
    hide Dot, ZeroColumns, ZeroColumn, Padded, MatVec;
    var z := ZeroColumns(m, cols, cols);
    PaddedSize(m, cols);
    PaddedValue(m, cols, v);
    var b := seq(|z|, i requires 0 <= i < |z| => v[z[i]]);
    AllZero(b);
    ZeroAppend(|m|, |z|);
    assert OnlyFirst(v, |Padded(m, cols)|);
    assert InLeadingKernel(m, cols, v);
  }

  lemma XorZero(m: Matrix, a: Bits, b: Bits)
    requires |a| == |b| && IsMatrix(m, |a|) && MatVec(m, a) == MatVec(m, b)
    ensures MatVec(m, Xor(a, b)) == Zero(|m|)
  {
    MatVecXor(m, a, b);
    XorCancel(MatVec(m, a), MatVec(m, b));
  }

  lemma XorDecides(a: Bits, b: Bits)
    requires |a| == |b| && Xor(a, b) == Zero(|a|)
    ensures a == b
  {
    XorCancel(a, b);
  }

  lemma CallableSays(self: Layout, outer: Layout)
    requires Callable(self, outer)
    ensures WellFormed(self) && WellFormed(outer)
  {
  }

  // What two answers make of one coordinate looks the same to `outer`.
  lemma SameThroughOuter(self: Layout, outer: Layout, comp1: Layout, comp2: Layout, x: Coord)
    requires Callable(self, outer) && InRange(InDims(self.ins), x)
    requires WellFormed(comp1) && InDims(comp1.ins) == InDims(self.ins) && comp1.outs == InDims(outer.ins) && CorrectAt(self, outer, comp1, x)
    requires WellFormed(comp2) && InDims(comp2.ins) == InDims(self.ins) && comp2.outs == InDims(outer.ins) && CorrectAt(self, outer, comp2, x)
    ensures var b := Flat(InDims(self.ins), x);
            MatVec(OuterMatrix(self, outer), MatVec(MatrixOf(comp1), b)) == MatVec(OuterMatrix(self, outer), MatVec(MatrixOf(comp2), b))
  {
    hide Apply, Flat, MatrixOf, MatVec, Surjective;
    var t, y1, y2 := OuterInOrder(self, outer), Apply(comp1, x), Apply(comp2, x);
    ApplyInRange(comp1, x);
    ApplyInRange(comp2, x);
    TransposeOutsKeeps(outer, self.outs, y1);
    TransposeOutsKeeps(outer, self.outs, y2);
    SameImageSameOutput(t, y1, y2);
    ApplyIsMatVec(comp1, x);
    ApplyIsMatVec(comp2, x);
  }

  lemma SameColumn(self: Layout, outer: Layout, comp1: Layout, comp2: Layout, c: nat)
    requires Callable(self, outer) && LeadingBasesIndependent(self, outer) && c < Total(InDims(self.ins))
    requires Composes(self, outer, comp1) && Composes(self, outer, comp2)
    requires Correct(self, outer, comp1) && Chosen(self, outer, comp1) && Correct(self, outer, comp2) && Chosen(self, outer, comp2)
    ensures Column(MatrixOf(comp1), Total(InDims(self.ins)), c) == Column(MatrixOf(comp2), Total(InDims(self.ins)), c)
  {
    hide ZeroColumns, ZeroBases, FlatBases, MatrixOf, MatVec, ImageBit, Callable, Unflat, Flat, CorrectAt, Column, Xor, WellFormed, InRange;
    var nr, nl := Total(InDims(self.ins)), Total(InDims(outer.ins));
    var a, b := Column(MatrixOf(comp1), nr, c), Column(MatrixOf(comp2), nr, c);
    var x := Unflat(InDims(self.ins), Unit(nr, c));
    CallableSays(self, outer);
    UnitCoordinate(self, c);
    assert CorrectAt(self, outer, comp1, x) && CorrectAt(self, outer, comp2, x);
    SameThroughOuter(self, outer, comp1, comp2, x);
    ColumnOfUnit(MatrixOf(comp1), nr, c);
    ColumnOfUnit(MatrixOf(comp2), nr, c);
    XorZero(OuterMatrix(self, outer), a, b);
    RunZeros(self, outer);
    var zo := ZeroBases(outer, |FlatBases(outer.ins)|);
    forall k | 0 <= k < |zo| ensures !Xor(a, b)[zo[k]] {
      assert SendsZero(self, outer, comp1, c, k) && SendsZero(self, outer, comp2, c, k);
      ImageBitIs(comp1, c, zo[k]);
      ImageBitIs(comp2, c, zo[k]);
    }
    forall i | Total(Reordered(outer.outs, self.outs)) + |zo| <= i < nl ensures !Xor(a, b)[i] {
      assert Ends(self, outer, comp1, c, i) && Ends(self, outer, comp2, c, i);
      ImageBitIs(comp1, c, i);
      ImageBitIs(comp2, c, i);
    }
    NothingElse(OuterMatrix(self, outer), nl, Xor(a, b));
    XorDecides(a, b);
  }

  lemma UnitCoordinate(self: Layout, c: nat)
    requires WellFormed(self) && c < Total(InDims(self.ins))
    ensures var x := Unflat(InDims(self.ins), Unit(Total(InDims(self.ins)), c));
            InRange(InDims(self.ins), x) && Covers(InDims(self.ins), x) && Flat(InDims(self.ins), x) == Unit(Total(InDims(self.ins)), c)
  {
    FlatUnflat(InDims(self.ins), Unit(Total(InDims(self.ins)), c));
  }

  /** Only one layout is right and makes this choice. */
  lemma ChoiceIsUnique(self: Layout, outer: Layout, comp1: Layout, comp2: Layout, x: Coord)
    requires Callable(self, outer) && LeadingBasesIndependent(self, outer) && InRange(InDims(self.ins), x)
    requires Composes(self, outer, comp1) && Composes(self, outer, comp2)
    requires Correct(self, outer, comp1) && Chosen(self, outer, comp1) && Correct(self, outer, comp2) && Chosen(self, outer, comp2)
    ensures Apply(comp1, x) == Apply(comp2, x)
  {
    hide MatrixOf, MatVec, Callable, Correct, Chosen, Apply, Flat, Column;
    forall c | 0 <= c < Total(InDims(self.ins))
      ensures Column(MatrixOf(comp1), Total(InDims(self.ins)), c) == Column(MatrixOf(comp2), Total(InDims(self.ins)), c)
    {
      SameColumn(self, outer, comp1, comp2, c);
    }
    SameColumns(MatrixOf(comp1), MatrixOf(comp2), Total(InDims(self.ins)));
    ApplyIsMatVec(comp1, x);
    ApplyIsMatVec(comp2, x);
    ApplyInRange(comp1, x);
    ApplyInRange(comp2, x);
    FlatInjective(InDims(outer.ins), Apply(comp1, x), Apply(comp2, x));
  }

  // ---------- when the answer is one-to-one ----------

  ghost predicate OneToOne(l: Layout)
    requires WellFormed(l)
  {
    forall x: Coord, y: Coord :: InRange(InDims(l.ins), x) && InRange(InDims(l.ins), y) ==> (SameImage(l, x, y) ==> x == y)
  }

  ghost predicate SameImage(l: Layout, x: Coord, y: Coord)
    requires WellFormed(l) && Covers(InDims(l.ins), x) && Covers(InDims(l.ins), y)
  {
    Apply(l, x) == Apply(l, y)
  }

  // The answer keeps the bits of a coordinate at this layout's zero bases.
  lemma KeepsZeroBits(self: Layout, outer: Layout, comp: Layout, v: Bits, k: nat)
    requires Composes(self, outer, comp) && Chosen(self, outer, comp) && Extra(self, outer) == 0 && |v| == Total(InDims(self.ins))
    requires |FlatBases(self.ins)| == Total(InDims(self.ins)) && |FlatBases(outer.ins)| == Total(InDims(outer.ins))
    requires k < |ZeroBases(self, |FlatBases(self.ins)|)| && k < |ZeroBases(outer, |FlatBases(outer.ins)|)|
    requires MatVec(MatrixOf(comp), v) == Zero(Total(comp.outs))
    ensures !v[ZeroBases(self, |FlatBases(self.ins)|)[k]]
  {
    hide ZeroBases, FlatBases, MatrixOf, ImageBit, Dot, Callable;
    var zs, zo := ZeroBases(self, |FlatBases(self.ins)|), ZeroBases(outer, |FlatBases(outer.ins)|);
    var row := MatrixOf(comp)[zo[k]];
    forall c | 0 <= c < |v| ensures row[c] == (c == zs[k]) {
      assert SendsZero(self, outer, comp, c, k);
      ImageBitIs(comp, c, zo[k]);
    }
    assert row == Unit(|v|, zs[k]);
    DotUnit(v, zs[k]);
    ZeroAt(MatrixOf(comp), v, zo[k]);
  }

  lemma ZeroBaseListed(l: Layout, c: nat, n: nat)
    requires n <= |FlatBases(l.ins)| && c < n && IsZeroVector(FlatBases(l.ins)[c])
    ensures c in ZeroBases(l, n)
  {
    if c < n - 1 {
      ZeroBaseListed(l, c, n - 1);
    }
  }

  lemma KernelVanishes(self: Layout, outer: Layout, comp: Layout, v: Bits)
    requires Composes(self, outer, comp) && Chosen(self, outer, comp) && Extra(self, outer) == 0 && |v| == Total(InDims(self.ins))
    requires |FlatBases(self.ins)| == Total(InDims(self.ins)) && |FlatBases(outer.ins)| == Total(InDims(outer.ins))
    requires |ZeroBases(self, |FlatBases(self.ins)|)| <= |ZeroBases(outer, |FlatBases(outer.ins)|)|
    requires NonZeroColumnsIndependent(MatrixOf(self), Total(InDims(self.ins)))
    requires MatVec(MatrixOf(comp), v) == Zero(Total(comp.outs)) && MatVec(MatrixOf(self), v) == Zero(Total(self.outs))
    ensures v == Zero(|v|)
  {
    hide ZeroBases, FlatBases, MatrixOf, MatVec, ImageBit, Callable, Chosen, ZeroColumn, IsZeroVector;
    CallableSays(self, outer);
    forall c | 0 <= c < |v| && v[c] ensures !ZeroColumn(MatrixOf(self), |v|, c) {
      ZeroColumnIff(self, c);
      if IsZeroVector(FlatBases(self.ins)[c]) {
        ZeroBaseListed(self, c, |v|);
        var k :| 0 <= k < |ZeroBases(self, |v|)| && ZeroBases(self, |v|)[k] == c;
        KeepsZeroBits(self, outer, comp, v, k);
      }
    }
    assert InNonZeroKernel(MatrixOf(self), |v|, v);
  }

  /** With equal out sizes, the answer is one-to-one if the non-zero bases of this layout are
      independent and it has no more zero bases than the outer one. */
  lemma ChosenIsOneToOne(self: Layout, outer: Layout, comp: Layout)
    requires Composes(self, outer, comp) && Correct(self, outer, comp) && Chosen(self, outer, comp) && Extra(self, outer) == 0
    requires |FlatBases(self.ins)| == Total(InDims(self.ins)) && |FlatBases(outer.ins)| == Total(InDims(outer.ins))
    requires |ZeroBases(self, |FlatBases(self.ins)|)| <= |ZeroBases(outer, |FlatBases(outer.ins)|)|
    requires NonZeroColumnsIndependent(MatrixOf(self), Total(InDims(self.ins)))
    ensures OneToOne(comp)
  {
    hide ZeroBases, FlatBases, MatrixOf, MatVec, Callable, Chosen, NonZeroColumnsIndependent, Apply, Flat, Total, CorrectAt, Xor;
    CallableSays(self, outer);
    forall x: Coord, y: Coord | InRange(InDims(comp.ins), x) && InRange(InDims(comp.ins), y) && SameImage(comp, x, y) ensures x == y {
      assert CorrectAt(self, outer, comp, x) && CorrectAt(self, outer, comp, y);
      SameBySelf(self, outer, comp, x, y);
      var a, b := Flat(InDims(self.ins), x), Flat(InDims(self.ins), y);
      SameImageSameOutput(comp, x, y);
      SameImageSameOutput(self, x, y);
      XorZero(MatrixOf(comp), a, b);
      XorZero(MatrixOf(self), a, b);
      KernelVanishes(self, outer, comp, Xor(a, b));
      XorDecides(a, b);
      FlatInjective(InDims(self.ins), x, y);
    }
  }

  lemma SameBySelf(self: Layout, outer: Layout, comp: Layout, x: Coord, y: Coord)
    requires Callable(self, outer) && WellFormed(comp) && InDims(comp.ins) == InDims(self.ins) && comp.outs == InDims(outer.ins)
    requires InRange(InDims(self.ins), x) && InRange(InDims(self.ins), y) && SameImage(comp, x, y)
    requires CorrectAt(self, outer, comp, x) && CorrectAt(self, outer, comp, y)
    ensures Apply(self, x) == Apply(self, y)
  {
  }
}
