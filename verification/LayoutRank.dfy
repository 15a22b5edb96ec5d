/** Building the matrix of a layout and what the class computes from its reduced form:
surjectivity (lib/Tools/LinearLayout.cpp:310-374) and free-variable masks (957-990). */
module LayoutRank {
  import opened F2Matrix
  import opened Words
  import opened Rref
  import opened Rank
  import opened MatrixRank
  import opened Layout
  import opened LayoutMatrix

  // ---------- positions of bits ----------

  // Offset of dimension o in a flattened coordinate.
  function Start(dims: seq<Dim>, o: nat): nat
    requires o <= |dims|
  {
    if o == 0 then 0 else Start(dims, o - 1) + dims[o - 1].bits
  }

  lemma {:induction false} StartTail(dims: seq<Dim>, o: nat)
    requires 0 < o <= |dims|
    ensures Start(dims, o) == dims[0].bits + Start(dims[1..], o - 1)
  {
    if o > 1 {
      StartTail(dims, o - 1);
    }
  }

  lemma {:induction false} StartFits(dims: seq<Dim>, o: nat)
    requires o < |dims|
    ensures Start(dims, o) + dims[o].bits <= Total(dims)
    ensures Start(dims, |dims|) == Total(dims)
  {
    StartTail(dims, |dims|);
    if o > 0 {
      StartTail(dims, o);
      StartFits(dims[1..], o - 1);
    } else if |dims| > 1 {
      StartFits(dims[1..], 0);
    }
  }

  // `(v >> j) & 1`
  function BitAt(v: nat, j: nat): bool {
    if j == 0 then v % 2 == 1 else BitAt(v / 2, j - 1)
  }

  lemma {:induction false} ToBitsAt(v: nat, n: nat, j: nat)
    requires j < n
    ensures ToBits(v, n)[j] == BitAt(v, j)
  {
    if j > 0 {
      ToBitsAt(v / 2, n - 1, j - 1);
    }
  }

  lemma FlatVecHead(dims: seq<Dim>, v: seq<nat>)
    requires |v| == |dims| > 0
    ensures FlatVec(dims, v) == ToBits(v[0], dims[0].bits) + FlatVec(dims[1..], v[1..])
  {
  }

  lemma {:induction false} FlatVecAt(dims: seq<Dim>, v: seq<nat>, o: nat, j: nat)
    requires |v| == |dims| && o < |dims| && j < dims[o].bits
    ensures Start(dims, o) + j < Total(dims)
    ensures FlatVec(dims, v)[Start(dims, o) + j] == BitAt(v[o], j)
  {
    hide BitAt, FlatVec, ToBits;
    FlatVecHead(dims, v);
    StartFits(dims, o);
    if o == 0 {
      ToBitsAt(v[0], dims[0].bits, j);
    } else {
      StartTail(dims, o);
      FlatVecAt(dims[1..], v[1..], o - 1, j);
    }
  }

  lemma FlatBasesHead(ins: seq<InDim>)
    requires |ins| > 0
    ensures InDims(ins)[1..] == InDims(ins[1..]) && InDims(ins)[0].bits == |ins[0].bases|
    ensures FlatBases(ins) == ins[0].bases + FlatBases(ins[1..])
  {
  }

  lemma {:induction false} FlatBasesAt(ins: seq<InDim>, d: nat, i: nat)
    requires d < |ins| && i < |ins[d].bases|
    ensures Start(InDims(ins), d) + i < |FlatBases(ins)|
    ensures FlatBases(ins)[Start(InDims(ins), d) + i] == ins[d].bases[i]
  {
    hide Total, FlatBases, InDims;
    FlatBasesHead(ins);
    StartFits(InDims(ins), d);
    if d > 0 {
      StartTail(InDims(ins), d);
      FlatBasesAt(ins[1..], d - 1, i);
    }
  }

  // ---------- getMatrix ----------

  // Rows before r0 are filled; rows [r0, r1) are filled in columns before c.
  ghost predicate Filled(m: Matrix, full: Matrix, cols: nat, r0: nat, r1: nat, c: nat) {
    && |m| == |full| && IsMatrix(m, cols) && IsMatrix(full, cols)
    && forall row, col :: 0 <= row < |m| && 0 <= col < cols ==>
         m[row][col] == (full[row][col] && (row < r0 || (row < r1 && col < c)))
  }

  /** `getMatrix`. */
  method GetMatrix(l: Layout) returns (m: array<Bits>)
    requires WellFormed(l)
    ensures fresh(m) && m[..] == MatrixOf(l)
  {
    var rows, cols := Total(l.outs), Total(InDims(l.ins));
    ghost var full := MatrixOf(l);
    m := new Bits[rows](_ => Zero(cols));
    var r := 0;
    for o := 0 to |l.outs|
      invariant r == Start(l.outs, o)
      invariant Filled(m[..], full, cols, r, r, 0)
    {
      StartFits(l.outs, o);
      var c := 0;
      for d := 0 to |l.ins|
        invariant c == Start(InDims(l.ins), d)
        invariant Filled(m[..], full, cols, r, r + l.outs[o].bits, c)
      {
        c := FillDim(m, l, o, r, d, c);
      }
      StartIsTotal(InDims(l.ins));
      r := r + l.outs[o].bits;
    }
    StartIsTotal(l.outs);
    FilledAll(m[..], full, cols);
  }

  lemma FilledAll(m: Matrix, full: Matrix, cols: nat)
    requires Filled(m, full, cols, |full|, |full|, 0)
    ensures m == full
  {
    forall i | 0 <= i < |m| ensures m[i] == full[i] {
    }
  }

  lemma StartIsTotal(dims: seq<Dim>)
    ensures Start(dims, |dims|) == Total(dims)
  {
    if |dims| > 0 {
      StartFits(dims, 0);
    }
  }

  // The columns of in-dimension d, in the rows of out-dimension o.
  method FillDim(m: array<Bits>, l: Layout, o: nat, r: nat, d: nat, c0: nat) returns (c: nat)
    requires WellFormed(l) && o < |l.outs| && d < |l.ins|
    requires r == Start(l.outs, o) && c0 == Start(InDims(l.ins), d)
    requires Filled(m[..], MatrixOf(l), Total(InDims(l.ins)), r, r + l.outs[o].bits, c0)
    modifies m
    ensures c == Start(InDims(l.ins), d + 1)
    ensures Filled(m[..], MatrixOf(l), Total(InDims(l.ins)), r, r + l.outs[o].bits, c)
  {
    hide FlatVec, BitAt, WellFormed, Total, FlatBases, HasColumn, HasBit;
    ghost var cols := Total(InDims(l.ins));
    StartFits(l.outs, o);
    c := c0;
    for i := 0 to |l.ins[d].bases|
      invariant c == c0 + i
      invariant Filled(m[..], MatrixOf(l), cols, r, r + l.outs[o].bits, c)
    {
      FlatWidths(l);
      FlatBasesAt(l.ins, d, i);
      ColumnOfBasis(l.outs, FlatBases(l.ins), o, c);
      FillBits(m, MatrixOf(l), cols, r, l.outs[o].bits, c, l.ins[d].bases[i][o]);
      c := c + 1;
    }
  }

  // Column c of `m` holds the low k bits of v from row r on.
  ghost predicate HasColumn(m: Matrix, r: nat, k: nat, c: nat, v: nat) {
    forall row :: r <= row < r + k ==> HasBit(m, row, c, v, r)
  }

  ghost predicate HasBit(m: Matrix, row: nat, c: nat, v: nat, r: nat) {
    r <= row < |m| && c < |m[row]| && m[row][c] == BitAt(v, row - r)
  }

  lemma ColumnBit(outs: seq<Dim>, bases: seq<seq<nat>>, o: nat, c: nat, row: nat)
    requires Widths(bases, |outs|) && o < |outs| && c < |bases|
    requires Start(outs, o) <= row < Start(outs, o) + outs[o].bits
    ensures HasBit(BitRows(outs, bases), row, c, bases[c][o], Start(outs, o))
  {
    hide FlatVec, BitAt, Start, Total;
    FlatVecAt(outs, bases[c], o, row - Start(outs, o));
    assert BitRow(outs, bases, row)[c] == FlatVec(outs, bases[c])[row];
  }

  lemma ColumnOfBasis(outs: seq<Dim>, bases: seq<seq<nat>>, o: nat, c: nat)
    requires Widths(bases, |outs|) && o < |outs| && c < |bases|
    ensures HasColumn(BitRows(outs, bases), Start(outs, o), outs[o].bits, c, bases[c][o])
  {
    forall row | Start(outs, o) <= row < Start(outs, o) + outs[o].bits
      ensures HasBit(BitRows(outs, bases), row, c, bases[c][o], Start(outs, o))
    {
      ColumnBit(outs, bases, o, c, row);
    }
  }

  // The bits of one basis value go down column c, from row r on.
  method FillBits(m: array<Bits>, ghost full: Matrix, ghost cols: nat, r: nat, k: nat, c: nat, basis: nat)
    requires Filled(m[..], full, cols, r, r + k, c) && r + k <= m.Length && c < cols
    requires HasColumn(full, r, k, c, basis)
    modifies m
    ensures Filled(m[..], full, cols, r, r + k, c + 1)
  {
    ghost var was := m[..];
    for j := 0 to k
      invariant IsMatrix(m[..], cols)
      invariant forall row :: 0 <= row < m.Length && !(r <= row < r + j) ==> m[row] == was[row]
      invariant forall row :: r <= row < r + j ==> m[row] == was[row][c := full[row][c]]
    {
      assert HasBit(full, r + j, c, basis, r);
      m[r + j] := m[r + j][c := BitAt(basis, j)];
    }
  }

  // ---------- flattening and its inverse ----------

  function Unflat(dims: seq<Dim>, b: Bits): (x: Coord)
    requires |b| == Total(dims)
    ensures x.Keys == Names(dims)
  {
    if |dims| == 0 then map[]
    else
      var n, k := dims[0].name, dims[0].bits;
      assert Names(dims) == {n} + Names(dims[1..]) by {
        assert forall i :: 0 < i < |dims| ==> dims[i] == dims[1..][i - 1];
        assert forall i :: 0 <= i < |dims| - 1 ==> dims[1..][i] == dims[i + 1];
      }
      Unflat(dims[1..], b[k..])[n := FromBits(b[..k])]
  }

  lemma {:induction false} FlatSame(dims: seq<Dim>, x: Coord, y: Coord)
    requires Covers(dims, x) && Covers(dims, y)
    requires forall i :: 0 <= i < |dims| ==> x[dims[i].name] == y[dims[i].name]
    ensures Flat(dims, x) == Flat(dims, y)
  {
    if |dims| > 0 {
      assert forall i :: 0 <= i < |dims| - 1 ==> dims[1..][i] == dims[i + 1];
      FlatSame(dims[1..], x, y);
    }
  }

  lemma {:induction false} FlatUnflat(dims: seq<Dim>, b: Bits)
    requires |b| == Total(dims) && Distinct(dims)
    ensures InRange(dims, Unflat(dims, b)) && Flat(dims, Unflat(dims, b)) == b
  {
    if |dims| > 0 {
      var k, rest := dims[0].bits, dims[1..];
      var low, high := b[..k], b[k..];
      assert Distinct(rest) && b == low + high;
      FlatUnflat(rest, high);
      ToFromBits(low);
      UnflatStep(dims, Unflat(rest, high), FromBits(low));
    }
  }

  lemma UnflatStep(dims: seq<Dim>, y: Coord, v: nat)
    requires |dims| > 0 && Distinct(dims) && InRange(dims[1..], y) && v < Pow2(dims[0].bits)
    ensures Names(dims) == {dims[0].name} + Names(dims[1..])
    ensures InRange(dims, y[dims[0].name := v])
    ensures Flat(dims, y[dims[0].name := v]) == ToBits(v, dims[0].bits) + Flat(dims[1..], y)
  {
    hide Pow2, ToBits;
    var rest, x := dims[1..], y[dims[0].name := v];
    assert forall i :: 0 <= i < |rest| ==> rest[i] == dims[i + 1];
    assert forall i :: 0 < i < |dims| ==> dims[i] == rest[i - 1];
    FlatSame(rest, x, y);
  }

  // ---------- surjectivity ----------

  ghost predicate Reaches(l: Layout, y: Coord)
    requires WellFormed(l)
  {
    exists x: Coord :: InRange(InDims(l.ins), x) && Apply(l, x) == y
  }

  /** Every out coordinate is reached by some in coordinate. */
  ghost predicate Surjective(l: Layout)
    requires WellFormed(l)
  {
    forall y: Coord :: InRange(l.outs, y) ==> Reaches(l, y)
  }

  lemma ReachesIffReachable(l: Layout, y: Coord)
    requires WellFormed(l) && InRange(l.outs, y)
    ensures Reaches(l, y) <==> Reachable(MatrixOf(l), Total(InDims(l.ins)), Flat(l.outs, y))
  {
    var ins := InDims(l.ins);
    if Reaches(l, y) {
      var x: Coord :| InRange(ins, x) && Apply(l, x) == y;
      ApplyIsMatVec(l, x);
      assert Solves(MatrixOf(l), Flat(ins, x), Flat(l.outs, y));
    }
    if Reachable(MatrixOf(l), Total(ins), Flat(l.outs, y)) {
      var b: Bits :| |b| == Total(ins) && Solves(MatrixOf(l), b, Flat(l.outs, y));
      var x := Unflat(ins, b);
      FlatUnflat(ins, b);
      ApplyIsMatVec(l, x);
      ApplyInRange(l, x);
      FlatInjective(l.outs, Apply(l, x), y);
    }
  }

  lemma SurjectiveIffOnto(l: Layout)
    requires WellFormed(l)
    ensures Surjective(l) <==> Onto(MatrixOf(l), Total(InDims(l.ins)))
  {
    var cols := Total(InDims(l.ins));
    if Onto(MatrixOf(l), cols) {
      forall y: Coord | InRange(l.outs, y)
        ensures Reaches(l, y)
      {
        assert Reachable(MatrixOf(l), cols, Flat(l.outs, y));
        ReachesIffReachable(l, y);
      }
    }
    if Surjective(l) {
      forall b: Bits | |b| == Total(l.outs)
        ensures Reachable(MatrixOf(l), cols, b)
      {
        FlatUnflat(l.outs, b);
        assert Reaches(l, Unflat(l.outs, b));
        ReachesIffReachable(l, Unflat(l.outs, b));
      }
    }
  }

  /** `getMatrixRank`: eliminates in place and counts the rows that are left non-zero. */
  method GetMatrixRank(m: array<Bits>, cols: nat) returns (rank: nat)
    requires IsMatrix(m[..], cols)
    modifies m
    ensures rank == m.Length <==> Onto(old(m[..]), cols)
    ensures |Outputs(old(m[..]), cols)| == Pow2(rank)
  {
    hide Dot, PerformRows, Onto, Reduced, Outputs;
    ghost var start := m[..];
    if cols == 0 {
      NoColumns(start);
      OneOutput(start);
      return 0;
    }
    ghost var ops, r := InplaceRref(m, cols);
    RankDecidesOnto(m[..], start, cols, ops, r);
    RankCountsOutputs(m[..], start, cols, ops, r);
    NonZeroRowsIsRank(m[..], cols, r);
    rank := 0;
    for i := 0 to m.Length
      invariant rank == NonZeroRows(m[..i])
    {
      assert m[..i + 1][..i] == m[..i];
      if Lead(m[i]) < cols {
        rank := rank + 1;
      }
    }
    assert m[..m.Length] == m[..];
  }

  lemma NoColumns(m: Matrix)
    requires IsMatrix(m, 0)
    ensures Onto(m, 0) <==> |m| == 0
  {
    if |m| == 0 {
      forall y: Bits | |y| == 0
        ensures Reachable(m, 0, y)
      {
        assert Solves(m, [], y);
      }
    } else {
      var y := Unit(|m|, 0);
      forall x: Bits | |x| == 0
        ensures !Solves(m, x, y)
      {
        assert IsMatrix(m, |x|) ==> MatVec(m, x)[0] != y[0];
      }
      assert !Reachable(m, 0, y);
    }
  }

  // ---------- checkInvariants ----------

  datatype RawIn = RawIn(name: Name, bases: seq<seq<int>>)

  datatype RawOut = RawOut(name: Name, size: int)

  datatype Error = NegativeBasis | WrongLength | SizeNotPowerOf2 | BasisTooLarge | NotSurjective

  datatype Checked = Fail(error: Error) | Pass(layout: Layout, surjective: bool)

  function Log2(s: int): nat
    decreases s
  {
    if s <= 1 then 0 else 1 + Log2(s / 2)
  }

  predicate IsPow2(s: int) {
    s > 0 && Pow2(Log2(s)) == s
  }

  predicate HasNegative(ins: seq<RawIn>) {
    exists d :: 0 <= d < |ins| && exists i :: 0 <= i < |ins[d].bases| && exists b :: b in ins[d].bases[i] && b < 0
  }

  predicate HasWrongLength(ins: seq<RawIn>, n: nat) {
    exists d :: 0 <= d < |ins| && exists i :: 0 <= i < |ins[d].bases| && |ins[d].bases[i]| != n
  }

  predicate HasOddSize(outs: seq<RawOut>) {
    exists o :: 0 <= o < |outs| && !IsPow2(outs[o].size)
  }

  predicate HasTooLarge(ins: seq<RawIn>, outs: seq<RawOut>) {
    exists d :: 0 <= d < |ins| && exists i :: 0 <= i < |ins[d].bases| && TooLarge(ins[d].bases[i], outs)
  }

  predicate TooLarge(basis: seq<int>, outs: seq<RawOut>) {
    exists o :: 0 <= o < |outs| && o < |basis| && basis[o] >= outs[o].size
  }

  // The first complaint of checkInvariants about the shape of the arguments, in its order.
  function ShapeError(ins: seq<RawIn>, outs: seq<RawOut>): seq<Error> {
    if HasNegative(ins) then [NegativeBasis]
    else if HasWrongLength(ins, |outs|) then [WrongLength]
    else if HasOddSize(outs) then [SizeNotPowerOf2]
    else if HasTooLarge(ins, outs) then [BasisTooLarge]
    else []
  }

  function Naturals(b: seq<int>): (v: seq<nat>)
    requires forall x :: x in b ==> x >= 0
    ensures |v| == |b| && forall i :: 0 <= i < |b| ==> v[i] == b[i]
  {
    if |b| == 0 then []
    else
      assert b[0] in b;
      var first: nat := b[0];
      assert forall x :: x in b[1..] ==> x in b;
      [first] + Naturals(b[1..])
  }

  function CookIn(r: RawIn): (d: InDim)
    requires forall i :: 0 <= i < |r.bases| ==> forall b :: b in r.bases[i] ==> b >= 0
  {
    InDim(r.name, seq(|r.bases|, i requires 0 <= i < |r.bases| => Naturals(r.bases[i])))
  }

  // The layout with the given bases and sizes.
  function Cook(ins: seq<RawIn>, outs: seq<RawOut>): (l: Layout)
    requires !HasNegative(ins)
  {
    Layout(seq(|ins|, d requires 0 <= d < |ins| => CookIn(ins[d])),
           seq(|outs|, o requires 0 <= o < |outs| => Dim(outs[o].name, Log2(outs[o].size))))
  }

  // MapVector keys: no dimension is listed twice.
  ghost predicate UniqueNames(ins: seq<RawIn>, outs: seq<RawOut>) {
    && (forall i, j :: 0 <= i < j < |ins| ==> ins[i].name != ins[j].name)
    && (forall i, j :: 0 <= i < j < |outs| ==> outs[i].name != outs[j].name)
  }

  lemma CookWellFormed(ins: seq<RawIn>, outs: seq<RawOut>)
    requires UniqueNames(ins, outs) && ShapeError(ins, outs) == []
    ensures WellFormed(Cook(ins, outs))
  {
    var l := Cook(ins, outs);
    forall d, i | 0 <= d < |l.ins| && 0 <= i < |l.ins[d].bases|
      ensures IsVector(l.outs, l.ins[d].bases[i])
    {
      assert |ins[d].bases[i]| == |outs|;
      assert !TooLarge(ins[d].bases[i], outs);
      forall o | 0 <= o < |outs|
        ensures l.ins[d].bases[i][o] < Pow2(l.outs[o].bits)
      {
        assert ins[d].bases[i][o] < outs[o].size;
        assert IsPow2(outs[o].size);
      }
    }
  }

  // The arguments that describe a layout: its bases, and out-dimension sizes that are powers of 2.
  ghost predicate Describes(ins: seq<RawIn>, outs: seq<RawOut>, l: Layout) {
    && |ins| == |l.ins| && |outs| == |l.outs|
    && (forall d :: 0 <= d < |ins| ==> DescribesIn(ins[d], l.ins[d]))
    && forall o :: 0 <= o < |outs| ==> outs[o].name == l.outs[o].name && outs[o].size == Pow2(l.outs[o].bits)
  }

  ghost predicate DescribesIn(r: RawIn, d: InDim) {
    && r.name == d.name && |r.bases| == |d.bases|
    && forall i :: 0 <= i < |r.bases| ==> SameNumbers(r.bases[i], d.bases[i])
  }

  ghost predicate SameNumbers(a: seq<int>, b: seq<nat>) {
    |a| == |b| && forall j :: 0 <= j < |a| ==> a[j] == b[j]
  }

  lemma {:induction false} Log2OfPow2(n: nat)
    ensures Log2(Pow2(n)) == n && IsPow2(Pow2(n))
  {
    if n > 0 {
      Log2OfPow2(n - 1);
    }
  }

  // What describes a well-formed layout is accepted ...
  lemma DescribedIsAccepted(ins: seq<RawIn>, outs: seq<RawOut>, l: Layout)
    requires WellFormed(l) && Describes(ins, outs, l)
    ensures ShapeError(ins, outs) == [] && Cook(ins, outs) == l
  {
    hide Log2, IsPow2;
    forall d, i | 0 <= d < |ins| && 0 <= i < |ins[d].bases|
      ensures (forall b :: b in ins[d].bases[i] ==> b >= 0) && |ins[d].bases[i]| == |outs| && !TooLarge(ins[d].bases[i], outs)
    {
      BasisAccepted(ins, outs, l, d, i);
    }
    forall o | 0 <= o < |outs| ensures IsPow2(outs[o].size) && Log2(outs[o].size) == l.outs[o].bits {
      Log2OfPow2(l.outs[o].bits);
    }
    CookedBack(ins, outs, l);
  }

  lemma BasisAccepted(ins: seq<RawIn>, outs: seq<RawOut>, l: Layout, d: nat, i: nat)
    requires WellFormed(l) && Describes(ins, outs, l) && d < |ins| && i < |ins[d].bases|
    ensures forall b :: b in ins[d].bases[i] ==> b >= 0
    ensures |ins[d].bases[i]| == |outs| && !TooLarge(ins[d].bases[i], outs)
  {
    assert DescribesIn(ins[d], l.ins[d]);
    assert SameNumbers(ins[d].bases[i], l.ins[d].bases[i]);
    assert Vectors(l.outs, l.ins[d].bases);
    assert IsVector(l.outs, l.ins[d].bases[i]);
  }

  lemma CookedBack(ins: seq<RawIn>, outs: seq<RawOut>, l: Layout)
    requires Describes(ins, outs, l) && !HasNegative(ins)
    requires forall o :: 0 <= o < |outs| ==> Log2(outs[o].size) == l.outs[o].bits
    ensures Cook(ins, outs) == l
  {
    hide Log2;
    var c := Cook(ins, outs);
    forall d | 0 <= d < |ins| ensures c.ins[d] == l.ins[d] {
      assert DescribesIn(ins[d], l.ins[d]);
      forall i | 0 <= i < |ins[d].bases| ensures c.ins[d].bases[i] == l.ins[d].bases[i] {
        assert SameNumbers(ins[d].bases[i], l.ins[d].bases[i]);
      }
      assert c.ins[d].bases == l.ins[d].bases;
    }
    assert c.ins == l.ins && c.outs == l.outs;
  }

  // ... and what is accepted describes the layout made of it.
  lemma AcceptedIsDescribed(ins: seq<RawIn>, outs: seq<RawOut>)
    requires ShapeError(ins, outs) == []
    ensures Describes(ins, outs, Cook(ins, outs))
  {
    hide Log2, HasNegative;
    var l := Cook(ins, outs);
    forall d | 0 <= d < |ins| ensures DescribesIn(ins[d], l.ins[d]) {
    }
    forall o | 0 <= o < |outs| ensures outs[o].size == Pow2(l.outs[o].bits) {
      assert IsPow2(outs[o].size);
    }
  }

  /** The shape of the arguments is accepted exactly if they describe a well-formed layout. */
  lemma ShapeAcceptedIff(ins: seq<RawIn>, outs: seq<RawOut>)
    requires UniqueNames(ins, outs)
    ensures ShapeError(ins, outs) == [] <==> exists l :: WellFormed(l) && Describes(ins, outs, l)
  {
    hide ShapeError, WellFormed, Describes, Cook;
    if ShapeError(ins, outs) == [] {
      CookWellFormed(ins, outs);
      AcceptedIsDescribed(ins, outs);
    }
    if l :| WellFormed(l) && Describes(ins, outs, l) {
      DescribedIsAccepted(ins, outs, l);
    }
  }

  /** The constructor with `checkInvariants`: reports the first violated condition, and marks
      the layout surjective exactly when every out coordinate is reached. */
  method CheckInvariants(ins: seq<RawIn>, outs: seq<RawOut>, requireSurjective: bool) returns (r: Checked)
    requires UniqueNames(ins, outs)
    ensures ShapeError(ins, outs) != [] ==> r == Fail(ShapeError(ins, outs)[0])
    ensures ShapeError(ins, outs) == [] ==>
              && WellFormed(Cook(ins, outs))
              && r == if requireSurjective && !Surjective(Cook(ins, outs)) then Fail(NotSurjective)
                      else Pass(Cook(ins, outs), Surjective(Cook(ins, outs)))
  {
    var e := ShapeError(ins, outs);
    if e != [] {
      return Fail(e[0]);
    }
    CookWellFormed(ins, outs);
    var l := Cook(ins, outs);
    var m := GetMatrix(l);
    SurjectiveIffOnto(l);
    var rank := GetMatrixRank(m, Total(InDims(l.ins)));
    var surjective := rank == Total(l.outs);
    r := if requireSurjective && !surjective then Fail(NotSurjective) else Pass(l, surjective);
  }
}
