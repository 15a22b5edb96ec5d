/** The rank read off a reduced matrix is a property of the matrix it came from: a matrix over F2
with rank r produces exactly 2^r different vectors (lib/Tools/LinearLayout.cpp:142-160). */
module MatrixRank {
  import opened F2Matrix
  import opened Words
  import opened Rref
  import opened Rank
  import opened Pigeonhole

  ghost function Produce(m: Matrix, x: Bits): Bits {
    if IsMatrix(m, |x|) then MatVec(m, x) else []
  }

  // The distinct vectors that the matrix produces.
  ghost function Outputs(m: Matrix, cols: nat): set<Bits> {
    Image(AllBits(cols), x => Produce(m, x))
  }

  lemma InOutputs(m: Matrix, cols: nat, y: Bits)
    requires IsMatrix(m, cols)
    ensures y in Outputs(m, cols) <==> Reachable(m, cols, y)
  {
    forall x: Bits ensures x in AllBits(cols) <==> |x| == cols {
      InAllBits(x, cols);
    }
    if Reachable(m, cols, y) {
      var x: Bits :| |x| == cols && Solves(m, x, y);
      assert Produce(m, x) == y;
    }
  }

  lemma OneOutput(m: Matrix)
    ensures |Outputs(m, 0)| == Pow2(0)
  {
    assert Outputs(m, 0) == {Produce(m, [])};
  }

  // The matrix's value at the pivot columns chosen by u.
  ghost function FromPivots(red: Matrix, m: Matrix, cols: nat, rank: nat, u: Bits): Bits {
    if rank <= |red| && |u| == rank then Produce(m, PivotVector(red, cols, rank, u + Zero(|red| - rank))) else []
  }

  lemma PivotsProduce(red: Matrix, cols: nat, rank: nat, u: Bits)
    requires Reduced(red, cols, rank) && |u| == rank
    ensures var y := u + Zero(|red| - rank); MatVec(red, PivotVector(red, cols, rank, y)) == y
  {
    PivotVectorSolves(red, cols, rank, u + Zero(|red| - rank));
  }

  lemma PivotsInjective(red: Matrix, m: Matrix, cols: nat, ops: seq<RowOp>, rank: nat, u: Bits, w: Bits)
    requires ReducedFrom(red, m, cols, ops, rank) && |u| == |w| == rank
    requires FromPivots(red, m, cols, rank, u) == FromPivots(red, m, cols, rank, w)
    ensures u == w
  {
    hide Dot, PerformRows, PivotVector;
    var y, z := u + Zero(|red| - rank), w + Zero(|red| - rank);
    PivotsProduce(red, cols, rank, u);
    PivotsProduce(red, cols, rank, w);
    SameImage(red, m, cols, ops, rank, PivotVector(red, cols, rank, y), PivotVector(red, cols, rank, z));
    assert u == y[..rank] && w == z[..rank];
  }

  lemma PivotsReach(red: Matrix, m: Matrix, cols: nat, ops: seq<RowOp>, rank: nat, x: Bits) returns (u: Bits)
    requires ReducedFrom(red, m, cols, ops, rank) && |x| == cols
    ensures |u| == rank && FromPivots(red, m, cols, rank, u) == MatVec(m, x)
  {
    hide Dot, PerformRows, PivotVector;
    var y := MatVec(red, x);
    u := y[..rank];
    ZeroRowsGiveZero(red, cols, rank, x);
    assert y == u + Zero(|red| - rank);
    PivotVectorRepeats(red, cols, rank, x);
    SameImage(red, m, cols, ops, rank, PivotVector(red, cols, rank, y), x);
  }

  lemma PivotsImage(red: Matrix, m: Matrix, cols: nat, ops: seq<RowOp>, rank: nat)
    requires ReducedFrom(red, m, cols, ops, rank)
    ensures Outputs(m, cols) == Image(AllBits(rank), u => FromPivots(red, m, cols, rank, u))
  {
    hide ReducedFrom, AllBits, PivotVector;
    var f := u => FromPivots(red, m, cols, rank, u);
    SameWidth(red, m, cols, ops, rank);
    forall y: Bits
      ensures y in Outputs(m, cols) <==> y in Image(AllBits(rank), f)
    {
      if y in Outputs(m, cols) {
        var x :| x in AllBits(cols) && Produce(m, x) == y;
        InAllBits(x, cols);
        var u := PivotsReach(red, m, cols, ops, rank, x);
        InAllBits(u, rank);
        assert f(u) == y;
      }
      if y in Image(AllBits(rank), f) {
        var u :| u in AllBits(rank) && f(u) == y;
        InAllBits(u, rank);
        var x := PivotVector(red, cols, rank, u + Zero(|red| - rank));
        InAllBits(x, cols);
        assert Produce(m, x) == y;
      }
    }
  }

  lemma SameWidth(red: Matrix, m: Matrix, cols: nat, ops: seq<RowOp>, rank: nat)
    requires ReducedFrom(red, m, cols, ops, rank)
    ensures IsMatrix(m, cols) && |red| == |m| && rank <= |red|
  {
  }

  /** However the matrix was reduced, it produces 2^rank different vectors. */
  lemma RankCountsOutputs(red: Matrix, m: Matrix, cols: nat, ops: seq<RowOp>, rank: nat)
    requires ReducedFrom(red, m, cols, ops, rank)
    ensures |Outputs(m, cols)| == Pow2(rank)
  {
    hide ReducedFrom, AllBits, FromPivots;
    var f := u => FromPivots(red, m, cols, rank, u);
    forall u, w | u in AllBits(rank) && w in AllBits(rank) && f(u) == f(w)
      ensures u == w
    {
      InAllBits(u, rank);
      InAllBits(w, rank);
      PivotsInjective(red, m, cols, ops, rank, u, w);
    }
    PivotsImage(red, m, cols, ops, rank);
    ImageSize(AllBits(rank), f);
    CountBits(rank);
  }

  /** So any two eliminations of the same matrix leave the same number of non-zero rows. */
  lemma RankIsUnique(red1: Matrix, red2: Matrix, m: Matrix, cols: nat, ops1: seq<RowOp>, ops2: seq<RowOp>, r1: nat, r2: nat)
    requires ReducedFrom(red1, m, cols, ops1, r1) && ReducedFrom(red2, m, cols, ops2, r2)
    ensures r1 == r2
  {
    hide ReducedFrom, Outputs;
    RankCountsOutputs(red1, m, cols, ops1, r1);
    RankCountsOutputs(red2, m, cols, ops2, r2);
    if r1 < r2 {
      Pow2Increases(r1, r2);
    } else if r2 < r1 {
      Pow2Increases(r2, r1);
    }
  }
}
