/** What a reduced matrix says about the matrix it came from: rank, onto-ness, solutions.
(lib/Tools/LinearLayout.cpp: getMatrixRank, the surjectivity test, getFreeVariableMasks) */
module Rank {
  import opened F2Matrix
  import opened Rref

  ghost predicate Solves(m: Matrix, x: Bits, y: Bits) {
    IsMatrix(m, |x|) && MatVec(m, x) == y
  }

  ghost predicate Reachable(m: Matrix, cols: nat, y: Bits) {
    exists x: Bits :: |x| == cols && Solves(m, x, y)
  }

  // Every vector of row values is produced by some input.
  ghost predicate Onto(m: Matrix, cols: nat) {
    forall y: Bits :: |y| == |m| ==> Reachable(m, cols, y)
  }

  // `red` is a reduced form of `m` with `rank` non-zero rows.
  ghost predicate ReducedFrom(red: Matrix, m: Matrix, cols: nat, ops: seq<RowOp>, rank: nat) {
    && IsMatrix(m, cols) && AllApply(ops, |m|)
    && red == PerformRows(ops, m, cols)
    && Reduced(red, cols, rank)
  }

  // ---------- pivots ----------

  // The row whose leading column is `c`, or `rank` if no row leads there.
  function PivotRow(red: Matrix, rank: nat, c: nat): (i: nat)
    requires rank <= |red|
    ensures i <= rank
    ensures i < rank ==> Lead(red[i]) == c
    ensures i == rank ==> forall j :: 0 <= j < rank ==> Lead(red[j]) != c
  {
    if exists i :: 0 <= i < rank && Lead(red[i]) == c
    then FirstPivot(red, rank, c, 0)
    else rank
  }

  function FirstPivot(red: Matrix, rank: nat, c: nat, k: nat): (i: nat)
    requires rank <= |red| && k <= rank
    requires exists i :: k <= i < rank && Lead(red[i]) == c
    ensures k <= i < rank && Lead(red[i]) == c
    decreases rank - k
  {
    if Lead(red[k]) == c then k else FirstPivot(red, rank, c, k + 1)
  }

  predicate IsPivot(red: Matrix, rank: nat, c: nat)
    requires rank <= |red|
  {
    PivotRow(red, rank, c) < rank
  }

  lemma PivotRowOfLead(red: Matrix, cols: nat, rank: nat, i: nat)
    requires Reduced(red, cols, rank) && i < rank
    ensures PivotRow(red, rank, Lead(red[i])) == i
  {
    var j := PivotRow(red, rank, Lead(red[i]));
    assert forall k :: 0 <= k < rank && k != i ==> Lead(red[k]) != Lead(red[i]);
  }

  /** The vector that has `y[i]` in the leading column of row `i` and 0 in every other column. */
  function PivotVector(red: Matrix, cols: nat, rank: nat, y: Bits): (x: Bits)
    requires rank <= |red| == |y|
    ensures |x| == cols
  {
    seq(cols, c requires 0 <= c < cols => IsPivot(red, rank, c) && y[PivotRow(red, rank, c)])
  }

  lemma PivotVectorSolves(red: Matrix, cols: nat, rank: nat, y: Bits)
    requires Reduced(red, cols, rank) && |y| == |red|
    ensures forall j :: 0 <= j < |red| ==> Dot(red[j], PivotVector(red, cols, rank, y)) == (j < rank && y[j])
  {
    var x := PivotVector(red, cols, rank, y);
    forall j | 0 <= j < |red|
      ensures Dot(red[j], x) == (j < rank && y[j])
    {
      if j < rank {
        PivotRowOfLead(red, cols, rank, j);
        assert x[Lead(red[j])] == y[j];
        assert forall c :: 0 <= c < cols && c != Lead(red[j]) ==> !(red[j][c] && x[c]);
        if y[j] {
          DotSingle(red[j], x, Lead(red[j]));
        } else {
          DotDisjoint(red[j], x);
        }
      } else {
        DotDisjoint(red[j], x);
      }
    }
  }

  lemma ZeroRowsGiveZero(red: Matrix, cols: nat, rank: nat, x: Bits)
    requires Reduced(red, cols, rank) && |x| == cols
    ensures forall j :: rank <= j < |red| ==> !MatVec(red, x)[j]
  {
    forall j | rank <= j < |red|
      ensures !MatVec(red, x)[j]
    {
      DotDisjoint(red[j], x);
    }
  }

  // Whatever the reduced matrix produces from x, it produces from pivot columns alone.
  lemma PivotVectorRepeats(red: Matrix, cols: nat, rank: nat, x: Bits)
    requires Reduced(red, cols, rank) && |x| == cols
    ensures MatVec(red, PivotVector(red, cols, rank, MatVec(red, x))) == MatVec(red, x)
  {
    PivotVectorSolves(red, cols, rank, MatVec(red, x));
    ZeroRowsGiveZero(red, cols, rank, x);
  }

  // ---------- rank and onto-ness ----------

  function NonZeroRows(m: Matrix): nat {
    if |m| == 0 then 0 else NonZeroRows(m[..|m| - 1]) + (if Lead(m[|m| - 1]) < |m[|m| - 1]| then 1 else 0)
  }

  lemma {:induction false} NonZeroRowsIsRank(m: Matrix, cols: nat, rank: nat)
    requires Reduced(m, cols, rank)
    ensures NonZeroRows(m) == rank
  {
    if |m| > 0 {
      var front := m[..|m| - 1];
      if rank == |m| {
        assert Reduced(front, cols, rank - 1);
        NonZeroRowsIsRank(front, cols, rank - 1);
      } else {
        assert Reduced(front, cols, rank);
        NonZeroRowsIsRank(front, cols, rank);
        assert m[|m| - 1] == Zero(cols);
      }
    }
  }

  lemma FullRankIsOnto(red: Matrix, m: Matrix, cols: nat, ops: seq<RowOp>, rank: nat)
    requires ReducedFrom(red, m, cols, ops, rank) && rank == |m|
    ensures Onto(m, cols)
  {
    forall y: Bits | |y| == |m|
      ensures Reachable(m, cols, y)
    {
      var target := PerformVec(ops, y);
      var x := PivotVector(red, cols, rank, target);
      PivotVectorSolves(red, cols, rank, target);
      assert MatVec(red, x) == target;
      PerformCommutes(ops, m, x);
      UndoPerform(ops, MatVec(m, x));
      UndoPerform(ops, y);
      assert Solves(m, x, y);
    }
  }

  // With a zero row left over, some vector of row values is missed.
  lemma LowRankMisses(red: Matrix, m: Matrix, cols: nat, ops: seq<RowOp>, rank: nat)
    requires ReducedFrom(red, m, cols, ops, rank) && rank < |m|
    ensures !Reachable(m, cols, UndoVec(ops, Unit(|m|, |m| - 1)))
  {
    var last := Unit(|m|, |m| - 1);
    PerformUndo(ops, last);
    forall x: Bits | |x| == cols
      ensures !Solves(m, x, UndoVec(ops, last))
    {
      PerformCommutes(ops, m, x);
      ZeroRowsGiveZero(red, cols, rank, x);
      assert MatVec(red, x)[|m| - 1] != last[|m| - 1];
    }
  }

  /** Onto-ness is decided by counting non-zero rows after elimination. */
  lemma RankDecidesOnto(red: Matrix, m: Matrix, cols: nat, ops: seq<RowOp>, rank: nat)
    requires ReducedFrom(red, m, cols, ops, rank)
    ensures NonZeroRows(red) == |m| <==> Onto(m, cols)
  {
    NonZeroRowsIsRank(red, cols, rank);
    if rank == |m| {
      FullRankIsOnto(red, m, cols, ops, rank);
    }
    if rank < |m| {
      LowRankMisses(red, m, cols, ops, rank);
    }
  }

  // ---------- kernels ----------

  // A column that leads no row has a kernel vector with a 1 there and otherwise only in pivot columns.
  lemma FreeColumnKernel(red: Matrix, m: Matrix, cols: nat, ops: seq<RowOp>, rank: nat, c: nat) returns (x: Bits)
    requires ReducedFrom(red, m, cols, ops, rank) && c < cols && !IsPivot(red, rank, c)
    ensures |x| == cols && x[c] && MatVec(m, x) == Zero(|m|)
    ensures forall d :: 0 <= d < cols && x[d] && d != c ==>
              IsPivot(red, rank, d) && red[PivotRow(red, rank, d)][c]
    ensures forall d :: c < d < cols ==> !x[d]
  {
    var y := MatVec(red, Unit(cols, c));
    var p := PivotVector(red, cols, rank, y);
    x := Xor(p, Unit(cols, c));
    PivotVectorRepeats(red, cols, rank, Unit(cols, c));
    MatVecXor(red, p, Unit(cols, c));
    XorCancel(y, y);
    MatVecUnit(red, cols, c);
    SameKernel(ops, m, x);
  }

  lemma ZeroValue(m: Matrix, x: Bits, r: nat)
    requires IsMatrix(m, |x|) && r < |m| && MatVec(m, x) == Zero(|m|)
    ensures !Dot(m[r], x)
  {
    assert MatVec(m, x)[r] == Zero(|m|)[r];
  }

  lemma PivotColumnIsClear(red: Matrix, cols: nat, rank: nat, c: nat, r: nat)
    requires Reduced(red, cols, rank) && c < cols && IsPivot(red, rank, c)
    requires r < |red| && r != PivotRow(red, rank, c)
    ensures !red[r][c]
  {
    assert Lead(red[PivotRow(red, rank, c)]) == c;
  }

  // If the matrix can read off the bit at c, that column leads a row of the reduced matrix.
  lemma UnitRowMakesPivot(red: Matrix, m: Matrix, cols: nat, ops: seq<RowOp>, rank: nat, c: nat, r: nat)
    requires ReducedFrom(red, m, cols, ops, rank) && c < cols && r < |m|
    requires m[r] == Unit(cols, c)
    ensures IsPivot(red, rank, c)
  {
    if !IsPivot(red, rank, c) {
      var x := FreeColumnKernel(red, m, cols, ops, rank, c);
      DotUnit(x, c);
      ZeroValue(m, x, r);
    }
  }

  // The row values before the elimination are those after it, undone.
  lemma UndoImage(red: Matrix, m: Matrix, cols: nat, ops: seq<RowOp>, x: Bits)
    requires IsMatrix(m, cols) && AllApply(ops, |m|) && red == PerformRows(ops, m, cols) && |x| == cols
    ensures UndoVec(ops, MatVec(red, x)) == MatVec(m, x)
  {
    hide IsMatrix, PerformRows, PerformVec, UndoVec, MatVec;
    PerformCommutes(ops, m, x);
    UndoPerform(ops, MatVec(m, x));
  }

  lemma SameImage(red: Matrix, m: Matrix, cols: nat, ops: seq<RowOp>, rank: nat, x: Bits, z: Bits)
    requires ReducedFrom(red, m, cols, ops, rank) && |x| == |z| == cols
    ensures MatVec(m, x) == MatVec(m, z) <==> MatVec(red, x) == MatVec(red, z)
  {
    PerformCommutes(ops, m, x);
    PerformCommutes(ops, m, z);
    UndoPerform(ops, MatVec(m, x));
    UndoPerform(ops, MatVec(m, z));
  }

  // The vector is 0 in every column that leads no row: all free variables are 0.
  ghost predicate FreeBitsZero(red: Matrix, rank: nat, x: Bits)
    requires rank <= |red|
  {
    forall c :: 0 <= c < |x| && x[c] ==> IsPivot(red, rank, c)
  }

  // Given the free bits are 0, a row value is just the bit in the row's leading column.
  lemma PivotBitIsRowValue(red: Matrix, cols: nat, rank: nat, x: Bits, i: nat)
    requires Reduced(red, cols, rank) && |x| == cols && FreeBitsZero(red, rank, x) && i < rank
    ensures Dot(red[i], x) == x[Lead(red[i])]
  {
    var k := Lead(red[i]);
    forall c | 0 <= c < cols && c != k
      ensures !(red[i][c] && x[c])
    {
      if x[c] {
        var j := PivotRow(red, rank, c);
        assert j < rank && Lead(red[j]) == c && j != i;
      }
    }
    if x[k] {
      DotSingle(red[i], x, k);
    } else {
      DotDisjoint(red[i], x);
    }
  }

  /** Every value the matrix can produce has exactly one preimage whose free bits are all 0. */
  lemma UniquePreimage(red: Matrix, m: Matrix, cols: nat, ops: seq<RowOp>, rank: nat, x: Bits)
    requires ReducedFrom(red, m, cols, ops, rank) && |x| == cols
    ensures var p := PivotVector(red, cols, rank, MatVec(red, x));
            && FreeBitsZero(red, rank, p)
            && MatVec(m, p) == MatVec(m, x)
            && forall z: Bits :: |z| == cols && FreeBitsZero(red, rank, z) && Solves(m, z, MatVec(m, x)) ==> z == p
  {
    var p := PivotVector(red, cols, rank, MatVec(red, x));
    PivotVectorRepeats(red, cols, rank, x);
    SameImage(red, m, cols, ops, rank, p, x);
    forall z: Bits | |z| == cols && FreeBitsZero(red, rank, z) && Solves(m, z, MatVec(m, x))
      ensures z == p
    {
      SameImage(red, m, cols, ops, rank, z, p);
      forall c | 0 <= c < cols
        ensures z[c] == p[c]
      {
        if IsPivot(red, rank, c) {
          var i := PivotRow(red, rank, c);
          PivotBitIsRowValue(red, cols, rank, z, i);
          PivotBitIsRowValue(red, cols, rank, p, i);
          assert MatVec(red, z)[i] == MatVec(red, p)[i];
        }
      }
    }
  }
}
