/** Promises of include/triton/Tools/LinearLayout.h:632-671 that compose and invertAndCompose do
not keep, each with layouts that their assertions accept. */
module LayoutExamples {
  import opened F2Matrix
  import opened Words
  import opened Layout
  import opened LayoutMatrix
  import opened LayoutRank
  import opened Reshape
  import opened InvertMatrix
  import opened ComposeSpec
  import opened Composition

  // ---------- an outer layout that is onto but not one-to-one ----------

  const IDENTITY2: Layout := Layout([InDim("i", [[1], [2]])], [Dim("o", 2)])

  // Offsets 1 and 2 hold the same element.
  const REPEATED: Layout := Layout([InDim("i", [[1], [1], [2]])], [Dim("o", 2)])

  lemma OneDim(l: Layout)
    requires |l.ins| == 1 && |l.outs| == 1
    requires forall i :: 0 <= i < |l.ins[0].bases| ==> |l.ins[0].bases[i]| == 1 && l.ins[0].bases[i][0] < Pow2(l.outs[0].bits)
    ensures WellFormed(l) && InDims(l.ins) == [Dim(l.ins[0].name, |l.ins[0].bases|)]
    ensures Names(l.outs) == {l.outs[0].name} && Names(InDims(l.ins)) == {l.ins[0].name}
    ensures Total(InDims(l.ins)) == |l.ins[0].bases| && Total(l.outs) == l.outs[0].bits
    ensures FlatBases(l.ins) == l.ins[0].bases
  {
    forall d | 0 <= d < |l.ins| ensures Vectors(l.outs, l.ins[d].bases) {
      forall i | 0 <= i < |l.ins[d].bases| ensures IsVector(l.outs, l.ins[d].bases[i]) {
      }
    }
    assert l.outs[0].name in Names(l.outs) && InDims(l.ins)[0].name in Names(InDims(l.ins));
    assert |InDims(l.ins)[1..]| == 0 && |l.outs[1..]| == 0 && |l.ins[1..]| == 0;
  }

  lemma ThreeBases(bases: seq<seq<nat>>, v: nat, j: nat)
    requires |bases| == 3 && forall i :: 0 <= i < 3 ==> j < |bases[i]|
    ensures DimValue(bases, v, j) ==
            XorInt(if v % 2 == 1 then bases[0][j] else 0,
                   XorInt(if v / 2 % 2 == 1 then bases[1][j] else 0,
                          XorInt(if v / 2 / 2 % 2 == 1 then bases[2][j] else 0, 0)))
  {
    hide XorInt;
    var one, two := bases[1..], bases[1..][1..];
    assert one[0] == bases[1] && two[0] == bases[2] && |two[1..]| == 0;
    assert DimValue(two, v / 2 / 2, j) == XorInt(if v / 2 / 2 % 2 == 1 then bases[2][j] else 0, 0);
    assert DimValue(one, v / 2, j) == XorInt(if v / 2 % 2 == 1 then bases[1][j] else 0, DimValue(two, v / 2 / 2, j));
  }

  lemma OneInValue(l: Layout, x: Coord, j: nat)
    requires WellFormed(l) && |l.ins| == 1 && Covers(InDims(l.ins), x) && j < |l.outs|
    requires forall i :: 0 <= i < |l.ins[0].bases| ==> j < |l.ins[0].bases[i]|
    ensures l.ins[0].name in x && l.outs[j].name in Apply(l, x)
    ensures Apply(l, x)[l.outs[j].name] == DimValue(l.ins[0].bases, x[l.ins[0].name], j)
  {
    hide DimValue, Apply;
    ApplyAt(l, x, j);
    assert InDims(l.ins)[0].name in x && |l.ins[1..]| == 0;
    XorIntZero(DimValue(l.ins[0].bases, x[l.ins[0].name], j));
  }

  lemma RepeatedValue(a: nat, b: nat)
    requires a < 2 && b < 2
    ensures DimValue(REPEATED.ins[0].bases, a + 4 * b, 0) == a + 2 * b
  {
    hide DimValue;
    ThreeBases(REPEATED.ins[0].bases, a + 4 * b, 0);
    assert a == 0 || a == 1;
    assert b == 0 || b == 1;
  }

  lemma RepeatedSurjective()
    ensures WellFormed(REPEATED) && Surjective(REPEATED)
  {
    hide DimValue, Apply, OutValue;
    OneDim(REPEATED);
    assert Pow2(2) == 4 && Pow2(3) == 8;
    forall y: Coord | InRange(REPEATED.outs, y) ensures Reaches(REPEATED, y) {
      assert REPEATED.outs[0].name == "o" && y["o"] < 4;
      var v := y["o"];
      var x: Coord := map["i" := v % 2 + 4 * (v / 2)];
      RepeatedValue(v % 2, v / 2);
      OneInValue(REPEATED, x, 0);
      assert InRange(InDims(REPEATED.ins), x);
      assert Apply(REPEATED, x) == y;
    }
  }

  lemma SameOrder(l: Layout, order: seq<Dim>)
    requires WellFormed(l) && InWidths(l.ins, |l.outs|) && |order| == |l.outs| == 1 && order[0].name == l.outs[0].name
    requires Names(order) == Names(l.outs)
    ensures Reordered(l.outs, order) == l.outs && TransposeOuts(l, order) == l
  {
    var t := TransposeOuts(l, order);
    forall d | 0 <= d < |l.ins| ensures t.ins[d] == l.ins[d] {
      forall i | 0 <= i < |l.ins[d].bases| ensures t.ins[d].bases[i] == l.ins[d].bases[i] {
      }
    }
  }

  /** The comment above invertAndCompose allows an outer layout that is not injective; this one
      passes every assertion and the conversion still dies on the identity check. */
  lemma NonInjectiveOuterFails()
    ensures Callable(IDENTITY2, REPEATED)
    ensures !LeadingBasesIndependent(IDENTITY2, REPEATED)
  {
    hide Surjective;
    assert Pow2(2) == 4;
    OneDim(IDENTITY2);
    OneDim(REPEATED);
    RepeatedSurjective();
    WellFormedWidths(REPEATED);
    SameOrder(REPEATED, IDENTITY2.outs);
    RepeatedMatrix(REPEATED);
    EqualColumnsDepend(MatrixOf(REPEATED));
  }

  lemma RepeatedMatrix(l: Layout)
    requires l == REPEATED && WellFormed(l) && Total(InDims(l.ins)) == 3 && Total(l.outs) == 2
    requires FlatBases(l.ins) == l.ins[0].bases
    ensures MatrixOf(l) == [[true, true, false], [false, false, true]]
  {
    var m := MatrixOf(l);
    assert |l.outs[1..]| == 0;
    assert FlatVec(l.outs, [1]) == [true, false];
    assert FlatVec(l.outs, [2]) == [false, true];
    assert m[0] == [true, true, false];
    assert m[1] == [false, false, true];
  }

  // Columns 0 and 1 are equal and not zero.
  lemma EqualColumnsDepend(m: Matrix)
    requires m == [[true, true, false], [false, false, true]]
    ensures !LeadingColumnsIndependent(m, 3)
  {
    hide Padded;
    var x := [true, true, false];
    NoPadding(m);
    assert m[0][1..] == [true, false] && m[0][1..][1..] == [false] && |m[0][1..][1..][1..]| == 0;
    assert m[1][1..] == [false, true] && m[1][1..][1..] == [true] && |m[1][1..][1..][1..]| == 0;
    assert x[1..] == [true, false] && x[1..][1..] == [false];
    assert !Dot(m[0], x);
    assert !Dot(m[1], x);
    assert InLeadingKernel(m, 3, x);
    assert x[0] != Zero(3)[0];
  }

  lemma NoPadding(m: Matrix)
    requires IsMatrix(m, 3) && m == [[true, true, false], [false, false, true]]
    ensures Padded(m, 3) == m
  {
    assert m[0][0] && m[0][1] && m[1][2];
    NoZeroColumns(m, 3, 3);
  }

  lemma {:induction false} NoZeroColumns(m: Matrix, cols: nat, c: nat)
    requires IsMatrix(m, cols) && c <= cols && forall d :: 0 <= d < c ==> !ZeroColumn(m, cols, d)
    ensures ZeroColumns(m, cols, c) == []
  {
    if c > 0 {
      NoZeroColumns(m, cols, c - 1);
    }
  }

  // ---------- an outer layout with a larger out-dimension ----------

  const SELF: Layout := Layout([InDim("i", [[0, 1]])], [Dim("x", 1), Dim("y", 1)])

  const WIDER: Layout := Layout([InDim("i", [[1, 0], [2, 0], [0, 1]])], [Dim("x", 2), Dim("y", 1)])

  lemma TwoDims(l: Layout)
    requires |l.ins| == 1 && |l.outs| == 2 && l.outs[0].name == "x" && l.outs[1].name == "y"
    requires forall i :: 0 <= i < |l.ins[0].bases| ==> IsVector(l.outs, l.ins[0].bases[i])
    ensures WellFormed(l) && InDims(l.ins) == [Dim(l.ins[0].name, |l.ins[0].bases|)]
    ensures Names(l.outs) == {"x", "y"} && Names(InDims(l.ins)) == {l.ins[0].name}
    ensures Total(InDims(l.ins)) == |l.ins[0].bases| && Total(l.outs) == l.outs[0].bits + l.outs[1].bits
    ensures FlatBases(l.ins) == l.ins[0].bases
  {
    forall d | 0 <= d < |l.ins| ensures Vectors(l.outs, l.ins[d].bases) {
    }
    assert "x"[0] != "y"[0];
    assert l.outs[0].name in Names(l.outs) && l.outs[1].name in Names(l.outs) && InDims(l.ins)[0].name in Names(InDims(l.ins));
    assert |InDims(l.ins)[1..]| == 0 && l.outs[1..] == [l.outs[1]] && |l.outs[1..][1..]| == 0 && |l.ins[1..]| == 0;
  }

  lemma WiderValue(a: nat, b: nat)
    requires a < 4 && b < 2
    ensures DimValue(WIDER.ins[0].bases, a + 4 * b, 0) == a && DimValue(WIDER.ins[0].bases, a + 4 * b, 1) == b
  {
    hide DimValue;
    ThreeBases(WIDER.ins[0].bases, a + 4 * b, 0);
    ThreeBases(WIDER.ins[0].bases, a + 4 * b, 1);
    assert a == 0 || a == 1 || a == 2 || a == 3;
    assert b == 0 || b == 1;
  }

  lemma WiderSurjective()
    ensures WellFormed(WIDER) && Names(WIDER.outs) == {"x", "y"} && Surjective(WIDER)
  {
    hide DimValue, Apply, OutValue;
    assert Pow2(2) == 4 && Pow2(1) == 2 && Pow2(3) == 8;
    TwoDims(WIDER);
    forall y: Coord | InRange(WIDER.outs, y) ensures Reaches(WIDER, y) {
      assert WIDER.outs[0].name == "x" && WIDER.outs[1].name == "y";
      var x: Coord := map["i" := y["x"] + 4 * y["y"]];
      WiderValue(y["x"], y["y"]);
      OneInValue(WIDER, x, 0);
      OneInValue(WIDER, x, 1);
      assert InRange(InDims(WIDER.ins), x);
      assert Apply(WIDER, x) == y;
    }
  }

  /** The assertions let `outer` have larger out-dimensions than `this`, but then their rows do
      not line up: for these two layouts the result is not an inverse, whatever it is. */
  lemma WiderOuterIsMisaligned()
    ensures Callable(SELF, WIDER) && !Aligned(SELF, WIDER)
  {
    hide Surjective;
    assert Pow2(1) == 2 && Pow2(2) == 4;
    TwoDims(SELF);
    TwoDims(WIDER);
    WiderSurjective();
    WidersOrder();
    MisalignedBasis();
    assert FlatBases(SELF.ins)[0] == [0, 1];
  }

  lemma WidersOrder()
    requires Names(SELF.outs) == Names(WIDER.outs)
    ensures Reordered(WIDER.outs, SELF.outs) == WIDER.outs
  {
    assert "x"[0] != "y"[0];
    assert SELF.outs[0].name == "x" && SELF.outs[1].name == "y";
    assert Reordered(WIDER.outs, SELF.outs)[0] == WIDER.outs[0];
    assert Reordered(WIDER.outs, SELF.outs)[1] == WIDER.outs[1];
  }

  lemma MisalignedBasis()
    requires Total(SELF.outs) == 2 && Total(WIDER.outs) == 3
    ensures !AlignedVector(SELF.outs, WIDER.outs, [0, 1])
  {
    var v: seq<nat> := [0, 1];
    assert v[1..] == [1] && |v[1..][1..]| == 0;
    assert SELF.outs[1..] == [Dim("y", 1)] && WIDER.outs[1..] == [Dim("y", 1)];
    assert FlatVec([Dim("y", 1)], [1]) == [true] by {
      assert |[Dim("y", 1)][1..]| == 0;
    }
    assert FlatVec(WIDER.outs, v) == [false, false] + [true];
    assert FlatVec(SELF.outs, v) == [false] + [true];
    assert FlatVec(WIDER.outs, v)[1] != (FlatVec(SELF.outs, v) + Zero(1))[1];
  }

  // ---------- a surjective composition of a layout that is not ----------

  const HALF: Layout := Layout([InDim("i", [[1]])], [Dim("m", 2)])

  const FOLD: Layout := Layout([InDim("m", [[1], [0]])], [Dim("o", 1)])

  /** The documentation says a composition is surjective only if both layouts are and the sizes
      match; this one is surjective although the first layout reaches only half of its codomain. */
  lemma SurjectiveWithoutSurjective()
    ensures Composable(HALF, FOLD) && !Surjective(HALF)
    ensures InWidths(HALF.ins, 1) && WellFormed(Compose(HALF, FOLD)) && Surjective(Compose(HALF, FOLD))
  {
    hide Apply, DimValue, OutValue, Compose, Surjective;
    assert Pow2(1) == 2 && Pow2(2) == 4;
    OneDim(HALF);
    OneDim(FOLD);
    ComposeWellFormed(HALF, FOLD);
    HalfMisses();
    AllReached(Compose(HALF, FOLD));
  }

  lemma AllReached(c: Layout)
    requires InWidths(HALF.ins, 1) && Composable(HALF, FOLD) && c == Compose(HALF, FOLD) && WellFormed(c)
    ensures Surjective(c)
  {
    hide Apply, Composable;
    forall z: Coord | InRange(c.outs, z) ensures Reaches(c, z) {
      FoldReaches(z);
    }
  }

  lemma FoldReaches(z: Coord)
    requires InWidths(HALF.ins, 1) && Composable(HALF, FOLD) && WellFormed(Compose(HALF, FOLD)) && InRange(FOLD.outs, z)
    ensures Reaches(Compose(HALF, FOLD), z)
  {
    hide Apply, DimValue, OutValue, Compose, Composable;
    assert Pow2(1) == 2 && FOLD.outs[0].name == "o" && z["o"] < 2;
    OneDim(HALF);
    OneDim(FOLD);
    var x: Coord := map["i" := z["o"]];
    assert InRange(InDims(HALF.ins), x);
    HalfValue(x);
    ComposeApplies(HALF, FOLD, x);
    FoldValue(Apply(HALF, x));
    assert Apply(Compose(HALF, FOLD), x) == z;
  }

  lemma HalfValue(x: Coord)
    requires WellFormed(HALF) && x.Keys == {"i"} && x["i"] < 2 && Covers(InDims(HALF.ins), x)
    ensures Apply(HALF, x).Keys == {"m"} && Apply(HALF, x)["m"] == x["i"]
  {
    hide Apply;
    var b: seq<seq<nat>> := HALF.ins[0].bases;
    OneDim(HALF);
    OneInValue(HALF, x, 0);
    assert |b[1..]| == 0;
    assert DimValue(b[1..], x["i"] / 2, 0) == 0;
    XorIntZero(1);
    XorIntZero(0);
  }

  lemma FoldValue(y: Coord)
    requires WellFormed(FOLD) && y.Keys == {"m"} && y["m"] < 2 && Covers(InDims(FOLD.ins), y)
    ensures Apply(FOLD, y).Keys == {"o"} && Apply(FOLD, y)["o"] == y["m"]
  {
    hide Apply;
    var b: seq<seq<nat>> := FOLD.ins[0].bases;
    OneDim(FOLD);
    OneInValue(FOLD, y, 0);
    assert b[1..] == [[0]] && |b[1..][1..]| == 0;
    assert DimValue(b[1..][1..], y["m"] / 2 / 2, 0) == 0;
    XorIntZero(0);
    XorIntZero(1);
    assert DimValue(b[1..], y["m"] / 2, 0) == 0;
  }

  lemma HalfMisses()
    requires WellFormed(HALF) && InDims(HALF.ins) == [Dim("i", 1)] && Names(HALF.outs) == {"m"}
    ensures !Surjective(HALF)
  {
    hide Apply;
    assert Pow2(1) == 2 && Pow2(2) == 4;
    OneDim(HALF);
    var y: Coord := map["m" := 2];
    assert InRange(HALF.outs, y);
    forall x: Coord | InRange(InDims(HALF.ins), x) ensures Apply(HALF, x) != y {
      assert InDims(HALF.ins)[0].name == "i";
      HalfValue(x);
    }
    assert !Reaches(HALF, y);
  }
}
