/** LinearLayout::invertAndCompose (lib/Tools/LinearLayout.cpp:843-955). */
module InvertAndCompose {
  import opened F2Matrix
  import opened Arith
  import opened Words
  import opened Rref
  import opened Rank
  import opened Layout
  import opened LayoutMatrix
  import opened LayoutRank
  import opened Reshape
  import opened InvertMatrix
  import opened ComposeSpec
  import opened ComposeChoice

  datatype Outcome = Fatal | Composed(layout: Layout)

  // ---------- getInjectiveMat ----------

  ghost predicate ColumnBitsUpTo(m: Matrix, cols: nat, h: nat, colBits: Bits) {
    && IsMatrix(m, cols) && h <= |m| && |colBits| == cols
    && forall c :: 0 <= c < cols ==> (colBits[c] <==> exists r :: 0 <= r < h && m[r][c])
  }

  // `a | b`
  function Or(a: Bits, b: Bits): (r: Bits)
    requires |a| == |b|
    ensures |r| == |a| && forall i :: 0 <= i < |r| ==> r[i] == (a[i] || b[i])
  {
    seq(|a|, i requires 0 <= i < |a| => a[i] || b[i])
  }

  // Or-reduces the rows into one word.
  method OrRows(m: array<Bits>, cols: nat) returns (colBits: Bits)
    requires IsMatrix(m[..], cols)
    ensures ColumnBitsUpTo(m[..], cols, m.Length, colBits)
  {
    colBits := Zero(cols);
    for r := 0 to m.Length
      invariant ColumnBitsUpTo(m[..], cols, r, colBits)
    {
      ghost var before := colBits;
      colBits := Or(colBits, m[r]);
      forall c | 0 <= c < cols
        ensures colBits[c] <==> exists i :: 0 <= i < r + 1 && m[..][i][c]
      {
        assert colBits[c] == (before[c] || m[..][r][c]);
      }
    }
  }

  lemma PaddingStep(m: Matrix, cols: nat, c: nat)
    requires IsMatrix(m, cols) && c < cols
    ensures Padding(m, cols, c + 1) == Padding(m, cols, c) + (if ZeroColumn(m, cols, c) then [Unit(cols, c)] else [])
    ensures |Padding(m, cols, c)| <= c
  {
    PaddingSize(m, cols, c);
  }

  lemma {:induction false} PaddingSize(m: Matrix, cols: nat, c: nat)
    requires IsMatrix(m, cols) && c <= cols
    ensures |Padding(m, cols, c)| == |ZeroColumns(m, cols, c)| <= c
  {
    if c > 0 {
      PaddingSize(m, cols, c - 1);
    }
  }

  lemma PaddingStart(m: Matrix, cols: nat)
    requires IsMatrix(m, cols)
    ensures Padding(m, cols, 0) == []
  {
  }

  lemma ZeroColumnBit(m: Matrix, cols: nat, colBits: Bits, c: nat)
    requires ColumnBitsUpTo(m, cols, |m|, colBits) && c < cols
    ensures |colBits| == cols && (ZeroColumn(m, cols, c) <==> !colBits[c])
  {
  }

  // Fills `expanded` behind the rows of `m` with a unit row per zero column.
  method AppendUnits(expanded: array<Bits>, ghost m: Matrix, cols: nat, colBits: Bits, start: nat) returns (numRows: nat)
    requires IsMatrix(m, cols) && ColumnBitsUpTo(m, cols, |m|, colBits) && |colBits| == cols
    requires start == |m| && expanded.Length == |m| + cols && expanded[..start] == m
    modifies expanded
    ensures numRows <= expanded.Length && expanded[..numRows] == Padded(m, cols)
  {
    hide Unit, ZeroColumns, Padding, ZeroColumn, ColumnBitsUpTo;
    numRows := start;
    PaddingStart(m, cols);
    for c := 0 to cols
      invariant numRows == |m| + |Padding(m, cols, c)|
      invariant numRows <= |m| + c
      invariant expanded[..numRows] == m + Padding(m, cols, c)
    {
      PaddingStep(m, cols, c);
      ZeroColumnBit(m, cols, colBits, c);
      if !colBits[c] {
        expanded[numRows] := Unit(cols, c);
        numRows := numRows + 1;
      }
    }
  }

  // `1 << c` is a 32-bit shift, so bit 30 is the last one.
  const MAX_SHIFT_BITS: nat := 31

  /** `getInjectiveMat`: appends a unit row for each zero column. */
  method GetInjectiveMat(l: Layout) returns (rows: seq<Bits>)
    requires WellFormed(l) && Total(InDims(l.ins)) <= MAX_SHIFT_BITS
    ensures rows == Padded(MatrixOf(l), Total(InDims(l.ins)))
  {
    var cols := Total(InDims(l.ins));
    var mat := GetMatrix(l);
    var colBits := OrRows(mat, cols);
    var expanded := new Bits[mat.Length + cols](_ => Zero(cols));
    for i := 0 to mat.Length
      invariant expanded[..i] == mat[..i]
      invariant mat[..] == MatrixOf(l)
    {
      expanded[i] := mat[i];
    }
    assert mat[..mat.Length] == mat[..];
    var numRows := AppendUnits(expanded, MatrixOf(l), cols, colBits, mat.Length);
    rows := expanded[..numRows];
  }

  // ---------- side by side ----------

  method CombineMatrices(left: seq<Bits>, nl: nat, right: seq<Bits>, nr: nat) returns (m: array<Bits>)
    requires IsMatrix(left, nl) && IsMatrix(right, nr)
    ensures fresh(m) && m[..] == Combined(left, nl, right, nr)
  {
    hide Placed, Combined, Or;
    m := new Bits[Max(|left|, |right|)](_ => Zero(nl + nr));
    PlacedStart(left, nl, right, nr, m[..]);
    for r := 0 to |left|
      invariant Placed(left, nl, right, nr, m[..], r, 0)
    {
      PlaceLeft(left, nl, right, nr, m[..], r);
      ghost var was := m[..];
      m[r] := left[r] + Zero(nr);
      assert m[..] == was[r := left[r] + Zero(nr)];
    }
    for r := 0 to |right|
      invariant Placed(left, nl, right, nr, m[..], |left|, r)
    {
      PlaceRight(left, nl, right, nr, m[..], r);
      ghost var was := m[..];
      m[r] := Or(m[r], Zero(nl) + right[r]);
      assert m[..] == was[r := Or(was[r], Zero(nl) + right[r])];
    }
    PlacedAll(left, nl, right, nr, m[..]);
  }

  // The first a rows of the left matrix and the first b rows of the right one are in place.
  ghost predicate Placed(left: Matrix, nl: nat, right: Matrix, nr: nat, m: Matrix, a: nat, b: nat)
    requires IsMatrix(left, nl) && IsMatrix(right, nr)
  {
    && |m| == Max(|left|, |right|)
    && forall i :: 0 <= i < |m| ==>
         m[i] == (if i < a then RowOr0(left, nl, i) else Zero(nl)) + (if i < b then RowOr0(right, nr, i) else Zero(nr))
  }

  lemma PlacedStart(left: Matrix, nl: nat, right: Matrix, nr: nat, m: Matrix)
    requires IsMatrix(left, nl) && IsMatrix(right, nr)
    requires |m| == Max(|left|, |right|) && forall i :: 0 <= i < |m| ==> m[i] == Zero(nl + nr)
    ensures Placed(left, nl, right, nr, m, 0, 0)
  {
    ZeroAppend(nl, nr);
  }

  lemma PlaceLeft(left: Matrix, nl: nat, right: Matrix, nr: nat, m: Matrix, r: nat)
    requires IsMatrix(left, nl) && IsMatrix(right, nr) && Placed(left, nl, right, nr, m, r, 0) && r < |left|
    ensures r < |m| && Placed(left, nl, right, nr, m[r := left[r] + Zero(nr)], r + 1, 0)
  {
  }

  lemma PlaceRight(left: Matrix, nl: nat, right: Matrix, nr: nat, m: Matrix, r: nat)
    requires IsMatrix(left, nl) && IsMatrix(right, nr) && Placed(left, nl, right, nr, m, |left|, r) && r < |right|
    ensures r < |m| && |m[r]| == nl + nr
    ensures Placed(left, nl, right, nr, m[r := Or(m[r], Zero(nl) + right[r])], |left|, r + 1)
  {
    hide Or;
    OrShifted(RowOr0(left, nl, r), right[r]);
  }

  lemma PlacedAll(left: Matrix, nl: nat, right: Matrix, nr: nat, m: Matrix)
    requires IsMatrix(left, nl) && IsMatrix(right, nr) && Placed(left, nl, right, nr, m, |left|, |right|)
    ensures m == Combined(left, nl, right, nr)
  {
  }

  // `row | (other << width)` on a row with nothing above its width.
  lemma OrShifted(row: Bits, other: Bits)
    ensures Or(row + Zero(|other|), Zero(|row|) + other) == row + other
  {
  }

  // Compares the leading n x n block with the identity.
  method HasIdentityBlock(m: array<Bits>, cols: nat, n: nat) returns (ok: bool)
    requires IsMatrix(m[..], cols) && n <= cols && n <= m.Length
    ensures ok <==> LeftIsIdentity(m[..], cols, n)
  {
    for r := 0 to n
      invariant forall i, c :: 0 <= i < r && 0 <= c < n ==> m[i][c] == (i == c)
    {
      for c := 0 to n
        invariant forall k :: 0 <= k < c ==> m[r][k] == (r == k)
      {
        if m[r][c] != (r == c) {
          assert m[..][r][c] == m[r][c];
          return false;
        }
      }
    }
    ok := true;
  }

  // `basis |= bit << r` down one column of the right block.
  method ReadBasis(m: array<Bits>, nl: nat, nr: nat, rowsLeft: nat, c: nat) returns (basis: nat)
    requires IsMatrix(m[..], nl + nr) && c < nr && rowsLeft <= m.Length && rowsLeft <= nl
    ensures basis < Pow2(nl) && ToBits(basis, nl) == ReadOff(m[..], nl, nr, rowsLeft, c)
  {
    hide ToBits, FromBits, ReadOff;
    ghost var column := ReadOff(m[..], nl, nr, rowsLeft, c);
    basis := 0;
    assert basis == FromBits(column[..0]) by {
      ZeroFromBits(0);
      assert column[..0] == Zero(0);
    }
    ReadOffBits(m[..], nl, nr, rowsLeft, c);
    for r := 0 to rowsLeft
      invariant basis == FromBits(column[..r])
    {
      FromBitsPrefix(column, r);
      if m[r][nl + c] {
        basis := basis + Pow2(r);
      }
    }
    FromBitsLow(column, rowsLeft);
    ToFromBits(column);
  }

  lemma ReadOffBits(red: Matrix, nl: nat, nr: nat, rowsLeft: nat, c: nat)
    requires IsMatrix(red, nl + nr) && c < nr && rowsLeft <= |red| && rowsLeft <= nl
    ensures forall r :: 0 <= r < rowsLeft ==> ReadOff(red, nl, nr, rowsLeft, c)[r] == red[r][nl + c]
    ensures forall r :: rowsLeft <= r < nl ==> !ReadOff(red, nl, nr, rowsLeft, c)[r]
  {
  }

  method ReadBases(m: array<Bits>, nl: nat, nr: nat, rowsLeft: nat) returns (bases: seq<nat>)
    requires IsMatrix(m[..], nl + nr) && rowsLeft <= m.Length && rowsLeft <= nl
    ensures |bases| == nr
    ensures forall c :: 0 <= c < nr ==> bases[c] < Pow2(nl) && ToBits(bases[c], nl) == ReadOff(m[..], nl, nr, rowsLeft, c)
  {
    bases := [];
    for c := 0 to nr
      invariant |bases| == c
      invariant forall i :: 0 <= i < c ==> bases[i] < Pow2(nl) && ToBits(bases[i], nl) == ReadOff(m[..], nl, nr, rowsLeft, i)
    {
      var basis := ReadBasis(m, nl, nr, rowsLeft, c);
      bases := bases + [basis];
    }
  }

  // The elimination as a `Run`, with the matrix of `self` lifted to the rows of `outer`.
  ghost function RunOf(self: Layout, outer: Layout, red: Matrix, ops: seq<RowOp>, rank: nat): (run: Run)
    requires Callable(self, outer)
    ensures run.Shaped()
  {
    Run(OuterMatrix(self, outer), Total(InDims(outer.ins)), SelfLifted(self, outer), Total(InDims(self.ins)), red, ops, rank)
  }

  lemma RunStart(self: Layout, outer: Layout, red: Matrix, ops: seq<RowOp>, rank: nat)
    requires Callable(self, outer)
    ensures RunOf(self, outer, red, ops, rank).Start() ==
            Combined(Padded(OuterMatrix(self, outer), Total(InDims(outer.ins))), Total(InDims(outer.ins)),
                     Padded(MatrixOf(self), Total(InDims(self.ins))), Total(InDims(self.ins)))
  {
    var nl, nr := Total(InDims(outer.ins)), Total(InDims(self.ins));
    var left := OuterMatrix(self, outer);
    TotalMonotone(self.outs, Reordered(outer.outs, self.outs));
    LiftCombined(Padded(left, nl), nl, MatrixOf(self), nr, |left|);
  }

  lemma OuterOnto(self: Layout, outer: Layout)
    requires Callable(self, outer)
    ensures Onto(OuterMatrix(self, outer), Total(InDims(outer.ins)))
  {
    TransposedSurjective(self, outer);
    SurjectiveIffOnto(OuterInOrder(self, outer));
  }

  lemma ReorderedRange(outs: seq<Dim>, order: seq<Dim>, y: Coord)
    requires Distinct(outs) && Names(order) == Names(outs) && InRange(Reordered(outs, order), y)
    requires Names(Reordered(outs, order)) == Names(outs)
    ensures InRange(outs, y)
  {
    var t := Reordered(outs, order);
    forall i | 0 <= i < |outs| ensures outs[i].name in y && y[outs[i].name] < Pow2(outs[i].bits) {
      var n := outs[i].name;
      assert n in Names(t);
      var j := Index(t, n);
      assert order[j].name in Names(outs) && t[j] == outs[Index(outs, order[j].name)];
    }
  }

  lemma TransposedSurjective(self: Layout, outer: Layout)
    requires Callable(self, outer)
    ensures Surjective(OuterInOrder(self, outer))
  {
    hide Flat, Total, Apply;
    var t := OuterInOrder(self, outer);
    forall y: Coord | InRange(t.outs, y)
      ensures Reaches(t, y)
    {
      ReorderedRange(outer.outs, self.outs, y);
      assert Reaches(outer, y);
      var x: Coord :| InRange(InDims(outer.ins), x) && Apply(outer, x) == y;
      TransposeOutsKeeps(outer, self.outs, x);
    }
  }

  lemma ValidRun(outer: Matrix, nl: nat, lifted: Matrix, nr: nat, start: Matrix, red: Matrix, ops: seq<RowOp>, rank: nat)
    requires Run(outer, nl, lifted, nr, red, ops, rank).Shaped() && Onto(outer, nl)
    requires start == Run(outer, nl, lifted, nr, red, ops, rank).Start()
    requires ReducedFrom(red, start, nl + nr, ops, rank)
    ensures Run(outer, nl, lifted, nr, red, ops, rank).Valid()
  {
    hide Padded, Combined, Onto, ReducedFrom;
  }

  method ReduceCombined(left: seq<Bits>, nl: nat, right: seq<Bits>, nr: nat)
    returns (m: array<Bits>, ghost ops: seq<RowOp>, ghost rank: nat)
    requires IsMatrix(left, nl) && IsMatrix(right, nr)
    ensures ReducedFrom(m[..], Combined(left, nl, right, nr), nl + nr, ops, rank)
  {
    m := CombineMatrices(left, nl, right, nr);
    ops, rank := InplaceRref(m, nl + nr);
  }

  // Pads both matrices, puts them side by side and eliminates.
  method Eliminate(self: Layout, outer: Layout) returns (m: array<Bits>, rowsOuter: nat, ghost run: Run)
    requires Callable(self, outer)
    ensures run == RunOf(self, outer, run.red, run.ops, run.rank) && run.Valid()
    ensures m[..] == run.red && rowsOuter == run.N()
  {
    var nl, nr := Total(InDims(outer.ins)), Total(InDims(self.ins));
    TransposedWellFormed(outer, self.outs);
    var matThis := GetInjectiveMat(self);
    var matOuter := GetInjectiveMat(TransposeOuts(outer, self.outs));
    ghost var ops, rank;
    m, ops, rank := ReduceCombined(matOuter, nl, matThis, nr);
    run := RunOf(self, outer, m[..], ops, rank);
    RunStart(self, outer, m[..], ops, rank);
    OuterOnto(self, outer);
    ValidRun(OuterMatrix(self, outer), nl, SelfLifted(self, outer), nr, Combined(matOuter, nl, matThis, nr), m[..], ops, rank);
    rowsOuter := |matOuter|;
  }

  lemma ReadIsInverse(self: Layout, outer: Layout, run: Run, composed: Layout)
    requires Callable(self, outer) && run == RunOf(self, outer, run.red, run.ops, run.rank) && run.Passed()
    requires WellFormed(composed) && InDims(composed.ins) == InDims(self.ins) && composed.outs == InDims(outer.ins)
    requires forall c :: 0 <= c < run.nr ==> Column(MatrixOf(composed), run.nr, c) == run.Answer(c)
    ensures Inverts(self, outer, composed)
  {
    forall c | 0 <= c < run.nr
      ensures MatVec(OuterMatrix(self, outer), Column(MatrixOf(composed), run.nr, c)) == Column(SelfLifted(self, outer), run.nr, c)
    {
      run.AnswerIsPreimage(c);
    }
  }

  lemma ComposedFromBases(self: Layout, outer: Layout, run: Run, bases: seq<nat>)
    requires Callable(self, outer) && run == RunOf(self, outer, run.red, run.ops, run.rank) && run.Passed()
    requires |bases| == run.nr
    requires forall c :: 0 <= c < run.nr ==> bases[c] < Pow2(run.nl) && ToBits(bases[c], run.nl) == run.Answer(c)
    ensures var c := Unflatten(self.ins[0].name, self.outs[0].name, bases, InDims(self.ins), InDims(outer.ins));
            WellFormed(c) && (Correct(self, outer, c) <==> Aligned(self, outer)) && Composes(self, outer, c) && Chosen(self, outer, c)
  {
    var inName, outName := self.ins[0].name, self.outs[0].name;
    UnflattenMatrix(inName, outName, bases, InDims(self.ins), InDims(outer.ins));
    var c := Unflatten(inName, outName, bases, InDims(self.ins), InDims(outer.ins));
    ReadIsInverse(self, outer, run, c);
    CorrectIffAligned(self, outer, c);
    AnswersChoose(self, outer, run, c);
  }

  /** `invertAndCompose`.  The check fails exactly when the leading bases of the padded outer
      layout are dependent; otherwise the result C has outer(C(x)) == self(x) everywhere
      exactly when the two layouts are aligned, which equal out-dimension sizes guarantee, and sends
      the zero bases of self to those of outer. */
  method InvertAndCompose(self: Layout, outer: Layout) returns (r: Outcome)
    requires Callable(self, outer)
    ensures r.Fatal? <==> !LeadingBasesIndependent(self, outer)
    ensures r.Composed? ==>
              && WellFormed(r.layout)
              && InDims(r.layout.ins) == InDims(self.ins) && r.layout.outs == InDims(outer.ins)
              && (Correct(self, outer, r.layout) <==> Aligned(self, outer))
              && Composes(self, outer, r.layout) && Chosen(self, outer, r.layout)
  {
    var nl, nr := Total(InDims(outer.ins)), Total(InDims(self.ins));
    var m, rowsOuter;
    ghost var run;
    m, rowsOuter, run := Eliminate(self, outer);
    run.PassedIffIndependent();
    var ok := HasIdentityBlock(m, nl + nr, rowsOuter);
    if !ok {
      return Fatal;
    }
    var bases := ReadBases(m, nl, nr, rowsOuter);
    ComposedFromBases(self, outer, run, bases);
    r := Composed(Unflatten(self.ins[0].name, self.outs[0].name, bases, InDims(self.ins), InDims(outer.ins)));
  }
}
