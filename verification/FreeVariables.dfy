/** LinearLayout::getFreeVariableMasks (lib/Tools/LinearLayout.cpp:957-990). */
module FreeVariables {
  import opened F2Matrix
  import opened Words
  import opened Rref
  import opened Rank
  import opened MatrixRank
  import opened Layout
  import opened LayoutMatrix
  import opened LayoutRank

  // ---------- counting pivots ----------

  // Columns before c that lead a row.
  function CountPivots(red: Matrix, rank: nat, c: nat): nat
    requires rank <= |red|
  {
    if c == 0 then 0 else CountPivots(red, rank, c - 1) + (if IsPivot(red, rank, c - 1) then 1 else 0)
  }

  // The rows whose leading column is before c are the first ones, and there are as many as such columns.
  lemma {:induction false} PivotsAreRows(red: Matrix, cols: nat, rank: nat, c: nat)
    requires Reduced(red, cols, rank) && c <= cols
    ensures CountPivots(red, rank, c) <= rank
    ensures forall i :: 0 <= i < rank ==> (Lead(red[i]) < c <==> i < CountPivots(red, rank, c))
  {
    if c > 0 {
      PivotsAreRows(red, cols, rank, c - 1);
      var k := CountPivots(red, rank, c - 1);
      if IsPivot(red, rank, c - 1) {
        var i := PivotRow(red, rank, c - 1);
        assert c - 1 <= Lead(red[k]);
        assert i == k;
        assert forall j :: k < j < rank ==> Lead(red[k]) < Lead(red[j]);
      }
    }
  }

  lemma PivotsCountRank(red: Matrix, cols: nat, rank: nat)
    requires Reduced(red, cols, rank)
    ensures CountPivots(red, rank, cols) == rank
  {
    PivotsAreRows(red, cols, rank, cols);
    if rank > 0 {
      assert Lead(red[rank - 1]) < cols;
    }
  }

  // ---------- masks ----------

  // The `&` of the source on non-negative integers.
  function AndInt(a: nat, b: nat): nat {
    if a == 0 || b == 0 then 0
    else (if a % 2 == 1 && b % 2 == 1 then 1 else 0) + 2 * AndInt(a / 2, b / 2)
  }

  // All masked bits of the coordinate are 0.
  ghost predicate Masked(dims: seq<Dim>, x: Coord, masks: Coord)
    requires Covers(dims, x) && Covers(dims, masks)
  {
    forall d :: 0 <= d < |dims| ==> AndInt(x[dims[d].name], masks[dims[d].name]) == 0
  }

  ghost predicate Disjoint(a: Bits, b: Bits) {
    |a| == |b| && forall i :: 0 <= i < |a| ==> !(a[i] && b[i])
  }

  lemma {:induction false} AndIsDisjoint(a: nat, b: nat, n: nat)
    requires a < Pow2(n) && b < Pow2(n)
    ensures AndInt(a, b) == 0 <==> Disjoint(ToBits(a, n), ToBits(b, n))
  {
    if a == 0 || b == 0 {
      ToBitsZero(n);
    } else {
      AndIsDisjoint(a / 2, b / 2, n - 1);
      DisjointAppend([a % 2 == 1], ToBits(a / 2, n - 1), [b % 2 == 1], ToBits(b / 2, n - 1));
      var p, q := [a % 2 == 1], [b % 2 == 1];
      assert Disjoint(p, q) ==> !(p[0] && q[0]);
    }
  }

  lemma DisjointAppend(a: Bits, b: Bits, p: Bits, q: Bits)
    requires |a| == |p|
    ensures Disjoint(a + b, p + q) <==> Disjoint(a, p) && Disjoint(b, q)
  {
    if Disjoint(a + b, p + q) {
      assert forall i :: 0 <= i < |a| ==> a[i] == (a + b)[i] && p[i] == (p + q)[i];
      assert forall i :: 0 <= i < |b| ==> b[i] == (a + b)[|a| + i] && q[i] == (p + q)[|a| + i];
    }
  }

  lemma {:induction false} MaskedIsDisjoint(dims: seq<Dim>, x: Coord, masks: Coord)
    requires Covers(dims, x) && Covers(dims, masks)
    requires forall d :: 0 <= d < |dims| ==> x[dims[d].name] < Pow2(dims[d].bits) && masks[dims[d].name] < Pow2(dims[d].bits)
    ensures Masked(dims, x, masks) <==> Disjoint(Flat(dims, x), Flat(dims, masks))
  {
    if |dims| > 0 {
      var n, rest := dims[0].name, dims[1..];
      assert forall i :: 0 <= i < |rest| ==> rest[i] == dims[i + 1];
      assert forall i :: 0 < i < |dims| ==> dims[i] == rest[i - 1];
      MaskedIsDisjoint(rest, x, masks);
      AndIsDisjoint(x[n], masks[n], dims[0].bits);
      DisjointAppend(ToBits(x[n], dims[0].bits), Flat(rest, x), ToBits(masks[n], dims[0].bits), Flat(rest, masks));
    }
  }

  // Input bits that are not masked.
  function Unmasked(mask: Bits): nat {
    if |mask| == 0 then 0 else Unmasked(mask[..|mask| - 1]) + (if mask[|mask| - 1] then 0 else 1)
  }

  ghost predicate FreeBits(red: Matrix, rank: nat, free: Bits)
    requires rank <= |red|
  {
    forall c :: 0 <= c < |free| ==> free[c] == !IsPivot(red, rank, c)
  }

  lemma {:induction false} UnmaskedIsPivots(red: Matrix, rank: nat, free: Bits)
    requires rank <= |red| && FreeBits(red, rank, free)
    ensures Unmasked(free) == CountPivots(red, rank, |free|)
  {
    if |free| > 0 {
      UnmaskedIsPivots(red, rank, free[..|free| - 1]);
    }
  }

  // ---------- what the masks mean ----------

  ghost predicate HasMaskedPreimage(l: Layout, masks: Coord, x: Coord)
    requires WellFormed(l) && InRange(InDims(l.ins), masks) && InRange(InDims(l.ins), x)
  {
    exists p: Coord :: InRange(InDims(l.ins), p) && Masked(InDims(l.ins), p, masks) && Apply(l, p) == Apply(l, x)
  }

  ghost predicate SameOutput(l: Layout, masks: Coord, p: Coord, q: Coord)
    requires WellFormed(l) && InRange(InDims(l.ins), masks) && InRange(InDims(l.ins), p) && InRange(InDims(l.ins), q)
  {
    Masked(InDims(l.ins), p, masks) && Masked(InDims(l.ins), q, masks) && Apply(l, p) == Apply(l, q)
  }

  /** Every output has a preimage whose masked bits are 0, and only one. */
  ghost predicate Selects(l: Layout, masks: Coord)
    requires WellFormed(l) && InRange(InDims(l.ins), masks)
  {
    && (forall x: Coord :: InRange(InDims(l.ins), x) ==> HasMaskedPreimage(l, masks, x))
    && forall p: Coord, q: Coord :: InRange(InDims(l.ins), p) && InRange(InDims(l.ins), q) ==> (SameOutput(l, masks, p, q) ==> p == q)
  }

  lemma FreeBitsDisjoint(red: Matrix, rank: nat, free: Bits, x: Bits)
    requires rank <= |red| && |x| == |free| && FreeBits(red, rank, free)
    ensures Disjoint(x, free) <==> FreeBitsZero(red, rank, x)
  {
  }

  lemma PreimageBits(red: Matrix, m: Matrix, cols: nat, ops: seq<RowOp>, rank: nat, free: Bits, x: Bits) returns (p: Bits)
    requires ReducedFrom(red, m, cols, ops, rank) && |free| == |x| == cols && FreeBits(red, rank, free)
    ensures |p| == cols && Disjoint(p, free) && MatVec(m, p) == MatVec(m, x)
  {
    UniquePreimage(red, m, cols, ops, rank, x);
    p := PivotVector(red, cols, rank, MatVec(red, x));
    FreeBitsDisjoint(red, rank, free, p);
  }

  lemma PreimageOnce(red: Matrix, m: Matrix, cols: nat, ops: seq<RowOp>, rank: nat, free: Bits, p: Bits, q: Bits)
    requires ReducedFrom(red, m, cols, ops, rank) && |free| == |p| == |q| == cols && FreeBits(red, rank, free)
    requires Disjoint(p, free) && Disjoint(q, free) && MatVec(m, p) == MatVec(m, q)
    ensures p == q
  {
    UniquePreimage(red, m, cols, ops, rank, p);
    FreeBitsDisjoint(red, rank, free, p);
    FreeBitsDisjoint(red, rank, free, q);
    assert Solves(m, p, MatVec(m, p)) && Solves(m, q, MatVec(m, p));
  }

  lemma SelectedPreimage(l: Layout, masks: Coord, x: Coord, p: Bits)
    requires WellFormed(l) && InRange(InDims(l.ins), masks) && InRange(InDims(l.ins), x)
    requires Disjoint(p, Flat(InDims(l.ins), masks))
    requires MatVec(MatrixOf(l), p) == MatVec(MatrixOf(l), Flat(InDims(l.ins), x))
    ensures HasMaskedPreimage(l, masks, x)
  {
    var dims := InDims(l.ins);
    var u := Unflat(dims, p);
    FlatUnflat(dims, p);
    MaskedIsDisjoint(dims, u, masks);
    SameImageSameOutput(l, u, x);
  }

  lemma SameImageSameOutput(l: Layout, x: Coord, y: Coord)
    requires WellFormed(l) && Covers(InDims(l.ins), x) && Covers(InDims(l.ins), y)
    ensures Apply(l, x) == Apply(l, y) <==>
            MatVec(MatrixOf(l), Flat(InDims(l.ins), x)) == MatVec(MatrixOf(l), Flat(InDims(l.ins), y))
  {
    ApplyIsMatVec(l, x);
    ApplyIsMatVec(l, y);
    ApplyInRange(l, x);
    ApplyInRange(l, y);
    if Flat(l.outs, Apply(l, x)) == Flat(l.outs, Apply(l, y)) {
      FlatInjective(l.outs, Apply(l, x), Apply(l, y));
    }
  }

  lemma SelectedOnce(l: Layout, red: Matrix, ops: seq<RowOp>, rank: nat, masks: Coord, p: Coord, q: Coord)
    requires WellFormed(l) && ReducedFrom(red, MatrixOf(l), Total(InDims(l.ins)), ops, rank)
    requires InRange(InDims(l.ins), masks) && FreeBits(red, rank, Flat(InDims(l.ins), masks))
    requires InRange(InDims(l.ins), p) && InRange(InDims(l.ins), q) && SameOutput(l, masks, p, q)
    ensures p == q
  {
    var dims := InDims(l.ins);
    MaskedIsDisjoint(dims, p, masks);
    MaskedIsDisjoint(dims, q, masks);
    SameImageSameOutput(l, p, q);
    PreimageOnce(red, MatrixOf(l), Total(dims), ops, rank, Flat(dims, masks), Flat(dims, p), Flat(dims, q));
    FlatInjective(dims, p, q);
  }

  lemma MaskedPreimage(l: Layout, red: Matrix, ops: seq<RowOp>, rank: nat, masks: Coord, x: Coord)
    requires WellFormed(l) && ReducedFrom(red, MatrixOf(l), Total(InDims(l.ins)), ops, rank)
    requires InRange(InDims(l.ins), masks) && FreeBits(red, rank, Flat(InDims(l.ins), masks))
    requires InRange(InDims(l.ins), x)
    ensures HasMaskedPreimage(l, masks, x)
  {
    hide Dot, PerformRows, Apply, Reduced, HasMaskedPreimage;
    var dims := InDims(l.ins);
    var p := PreimageBits(red, MatrixOf(l), Total(dims), ops, rank, Flat(dims, masks), Flat(dims, x));
    SelectedPreimage(l, masks, x, p);
  }

  lemma UnmaskedIsRank(red: Matrix, cols: nat, rank: nat, free: Bits)
    requires Reduced(red, cols, rank) && |free| == cols && FreeBits(red, rank, free)
    ensures Unmasked(free) == NonZeroRows(red)
  {
    hide Lead, LeadsIncrease;
    UnmaskedIsPivots(red, rank, free);
    PivotsCountRank(red, cols, rank);
    NonZeroRowsIsRank(red, cols, rank);
  }

  /** The masks clear all but rank-many in bits and select exactly one preimage of each output. */
  lemma MasksSelect(l: Layout, red: Matrix, ops: seq<RowOp>, rank: nat, masks: Coord)
    requires WellFormed(l) && ReducedFrom(red, MatrixOf(l), Total(InDims(l.ins)), ops, rank)
    requires InRange(InDims(l.ins), masks) && FreeBits(red, rank, Flat(InDims(l.ins), masks))
    ensures Selects(l, masks)
    ensures Unmasked(Flat(InDims(l.ins), masks)) == NonZeroRows(red)
  {
    hide Dot, PerformRows, Flat, MatrixOf, Apply, HasMaskedPreimage, SameOutput;
    var dims := InDims(l.ins);
    forall x: Coord | InRange(dims, x)
      ensures HasMaskedPreimage(l, masks, x)
    {
      MaskedPreimage(l, red, ops, rank, masks, x);
    }
    forall p: Coord, q: Coord | InRange(dims, p) && InRange(dims, q) && SameOutput(l, masks, p, q)
      ensures p == q
    {
      SelectedOnce(l, red, ops, rank, masks, p, q);
    }
    UnmaskedIsRank(red, Total(dims), rank, Flat(dims, masks));
  }

  // ---------- the method ----------

  lemma {:induction false} FlatSnoc(dims: seq<Dim>, x: Coord, d: nat)
    requires d < |dims| && Covers(dims[..d + 1], x)
    ensures Covers(dims[..d], x) && dims[d].name in x
    ensures Flat(dims[..d + 1], x) == Flat(dims[..d], x) + ToBits(x[dims[d].name], dims[d].bits)
  {
    assert forall i :: 0 <= i <= d ==> dims[..d + 1][i] == dims[i];
    if d > 0 {
      assert dims[..d + 1][1..] == dims[1..][..d] && dims[..d][1..] == dims[1..][..d - 1];
      assert forall i :: 0 <= i < d ==> dims[1..][..d][i] == dims[i + 1];
      FlatSnoc(dims[1..], x, d - 1);
      assert dims[1..][d - 1] == dims[d];
    }
  }

  method BasicVariables(m: array<Bits>, ghost cols: nat, ghost rank: nat) returns (basic: set<nat>)
    requires Reduced(m[..], cols, rank)
    ensures forall c :: 0 <= c < cols ==> (c in basic <==> IsPivot(m[..], rank, c))
  {
    basic := {};
    for r := 0 to m.Length
      invariant basic == set i | 0 <= i < r && i < rank :: Lead(m[i])
    {
      if Lead(m[r]) == |m[r]| { continue; }
      basic := basic + {Lead(m[r])};
    }
    forall c | 0 <= c < cols
      ensures c in basic <==> IsPivot(m[..], rank, c)
    {
      if c in basic {
        var i :| 0 <= i < rank && Lead(m[i]) == c;
        assert m[..][i] == m[i];
      }
    }
  }

  ghost function FreeOf(basic: set<nat>, cols: nat): (free: Bits)
    ensures |free| == cols && forall c :: 0 <= c < cols ==> free[c] == (c !in basic)
  {
    seq(cols, c requires 0 <= c => c !in basic)
  }

  // The mask of one in-dimension, from the free columns that belong to it.
  method DimMask(basic: set<nat>, c0: nat, bits: nat, ghost free: Bits) returns (mask: nat)
    requires free == FreeOf(basic, |free|) && c0 + bits <= |free|
    ensures mask < Pow2(bits)
    ensures ToBits(mask, bits) == free[c0..c0 + bits]
  {
    hide ToBits, FromBits;
    mask := 0;
    ghost var part := free[c0..c0 + bits];
    assert mask == FromBits(part[..0]) by {
      ZeroFromBits(0);
      assert part[..0] == Zero(0);
    }
    for i := 0 to bits
      invariant mask == FromBits(part[..i])
    {
      FromBitsPrefix(part, i);
      if c0 + i !in basic {
        mask := mask + Pow2(i);
      }
    }
    assert part[..bits] == part;
    ToFromBits(part);
  }

  // The masks of the first d in-dimensions are done.
  ghost predicate MasksUpTo(dims: seq<Dim>, free: Bits, masks: Coord, d: nat) {
    && d <= |dims| && |free| == Total(dims) && Start(dims, d) <= |free|
    && InRange(dims[..d], masks)
    && Flat(dims[..d], masks) == free[..Start(dims, d)]
  }

  lemma MaskStep(dims: seq<Dim>, free: Bits, masks: Coord, d: nat, mask: nat)
    requires Distinct(dims) && MasksUpTo(dims, free, masks, d) && d < |dims|
    requires Start(dims, d) + dims[d].bits <= |free| && mask < Pow2(dims[d].bits)
    requires ToBits(mask, dims[d].bits) == free[Start(dims, d)..Start(dims, d) + dims[d].bits]
    ensures MasksUpTo(dims, free, masks[dims[d].name := mask], d + 1)
  {
    hide InRange, Flat, ToBits, Pow2, Names, Distinct;
    RangeCovers(dims[..d], masks);
    ExtendMasks(dims, masks, d, mask);
    JoinSlices(free, Start(dims, d), Start(dims, d + 1), Flat(dims[..d], masks), ToBits(mask, dims[d].bits));
  }

  lemma JoinSlices(free: Bits, i: nat, j: nat, a: Bits, b: Bits)
    requires i <= j <= |free| && a == free[..i] && b == free[i..j]
    ensures a + b == free[..j]
  {
  }

  method BuildMasks(ins: seq<InDim>, basic: set<nat>) returns (masks: Coord)
    requires Distinct(InDims(ins))
    ensures InRange(InDims(ins), masks)
    ensures Flat(InDims(ins), masks) == FreeOf(basic, Total(InDims(ins)))
  {
    hide ToBits, Pow2, MasksUpTo, InRange, Flat, Distinct;
    ghost var dims, free := InDims(ins), FreeOf(basic, Total(InDims(ins)));
    masks := map[];
    MasksStart(dims, free);
    var c := 0;
    for d := 0 to |ins|
      invariant c == Start(dims, d)
      invariant MasksUpTo(dims, free, masks, d)
    {
      StartFits(dims, d);
      var mask := DimMask(basic, c, |ins[d].bases|, free);
      MaskStep(dims, free, masks, d, mask);
      masks := masks[ins[d].name := mask];
      c := c + |ins[d].bases|;
    }
    MasksDone(dims, free, masks);
  }

  lemma MasksStart(dims: seq<Dim>, free: Bits)
    requires |free| == Total(dims)
    ensures MasksUpTo(dims, free, map[], 0)
  {
    assert |dims[..0]| == 0;
  }

  lemma MasksDone(dims: seq<Dim>, free: Bits, masks: Coord)
    requires MasksUpTo(dims, free, masks, |dims|)
    ensures InRange(dims, masks) && Covers(dims, masks) && Flat(dims, masks) == free
  {
    hide Pow2, Flat;
    StartIsTotal(dims);
    assert dims[..|dims|] == dims && free[..|free|] == free;
  }

  /** `getFreeVariableMasks`. */
  method GetFreeVariableMasks(l: Layout) returns (masks: Coord)
    requires WellFormed(l)
    ensures InRange(InDims(l.ins), masks)
    ensures Selects(l, masks)
    ensures |Outputs(MatrixOf(l), Total(InDims(l.ins)))| == Pow2(Unmasked(Flat(InDims(l.ins), masks)))
  {
    var m := GetMatrix(l);
    var cols := Total(InDims(l.ins));
    ghost var ops, rank := InplaceRref(m, cols);
    var basic := BasicVariables(m, cols, rank);
    masks := BuildMasks(l.ins, basic);
    MasksSelect(l, m[..], ops, rank, masks);
    RankCountsOutputs(m[..], MatrixOf(l), cols, ops, rank);
    NonZeroRowsIsRank(m[..], cols, rank);
  }

  lemma ExtendMasks(dims: seq<Dim>, masks: Coord, d: nat, mask: nat)
    requires d < |dims| && Distinct(dims) && InRange(dims[..d], masks) && mask < Pow2(dims[d].bits)
    ensures InRange(dims[..d + 1], masks[dims[d].name := mask])
    ensures Flat(dims[..d + 1], masks[dims[d].name := mask]) == Flat(dims[..d], masks) + ToBits(mask, dims[d].bits)
  {
    hide *;
    var x := masks[dims[d].name := mask];
    FrontKept(dims, masks, d, mask);
    FrontInRange(dims, masks, d, mask);
    RangeCovers(dims[..d + 1], x);
    FlatSnoc(dims, x, d);
  }

  lemma RangeCovers(dims: seq<Dim>, x: Coord)
    requires InRange(dims, x)
    ensures Covers(dims, x)
  {
  }

  lemma FrontKept(dims: seq<Dim>, masks: Coord, d: nat, mask: nat)
    requires d < |dims| && Distinct(dims) && InRange(dims[..d], masks)
    ensures Covers(dims[..d], masks) && Covers(dims[..d], masks[dims[d].name := mask])
    ensures Flat(dims[..d], masks[dims[d].name := mask]) == Flat(dims[..d], masks)
  {
    hide Pow2, Names, Flat;
    assert forall i :: 0 <= i < d ==> dims[..d][i] == dims[i];
    FlatSame(dims[..d], masks, masks[dims[d].name := mask]);
  }

  lemma FrontInRange(dims: seq<Dim>, masks: Coord, d: nat, mask: nat)
    requires d < |dims| && Distinct(dims) && InRange(dims[..d], masks) && mask < Pow2(dims[d].bits)
    ensures InRange(dims[..d + 1], masks[dims[d].name := mask])
  {
    hide Pow2, Names;
    NamesSnoc(dims, d);
    assert forall i :: 0 <= i < d ==> dims[..d][i] == dims[i];
    assert forall i :: 0 <= i <= d ==> dims[..d + 1][i] == dims[i];
  }

  lemma NamesSnoc(dims: seq<Dim>, d: nat)
    requires d < |dims|
    ensures Names(dims[..d + 1]) == Names(dims[..d]) + {dims[d].name}
  {
    var a, b := Names(dims[..d + 1]), Names(dims[..d]) + {dims[d].name};
    forall n | n in a ensures n in b {
      var i :| 0 <= i <= d && dims[..d + 1][i].name == n;
      assert i < d ==> dims[..d][i].name == n;
    }
    forall n | n in b ensures n in a {
      if n == dims[d].name {
        assert dims[..d + 1][d].name == n;
      } else {
        var i :| 0 <= i < d && dims[..d][i].name == n;
        assert dims[..d + 1][i].name == n;
      }
    }
  }
}
