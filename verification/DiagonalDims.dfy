/** When a layout copies a dimension, its bases show it: the converse of what a trivial quotient
says about `apply` (lib/Tools/LinearLayout.cpp:660-793). */
module DiagonalDims {
  import opened Words
  import opened Layout
  import opened LayoutMatrix
  import opened Reshape
  import opened Product
  import opened Quotient

  /** In-dimension n goes to out-dimension n unchanged, and nothing else touches either. */
  ghost predicate Diagonal(l: Layout, n: Name)
    requires InWidths(l.ins, |l.outs|)
  {
    forall d, i, j :: 0 <= d < |l.ins| && 0 <= i < |l.ins[d].bases| && 0 <= j < |l.outs| ==> EntryOk(l, n, d, i, j)
  }

  ghost predicate EntryOk(l: Layout, n: Name, d: nat, i: nat, j: nat)
    requires InWidths(l.ins, |l.outs|) && d < |l.ins| && i < |l.ins[d].bases| && j < |l.outs|
  {
    var v := l.ins[d].bases[i][j];
    && (l.ins[d].name == n && l.outs[j].name == n ==> v == Pow2(i))
    && ((l.ins[d].name == n) != (l.outs[j].name == n) ==> v == 0)
  }

  // ---------- one in bit at a time ----------

  lemma {:induction false} DimValueOfBit(bases: seq<seq<nat>>, i: nat, j: nat)
    requires i < |bases| && forall k :: 0 <= k < |bases| ==> j < |bases[k]|
    ensures DimValue(bases, Pow2(i), j) == bases[i][j]
  {
    hide XorInt;
    if i == 0 {
      assert Pow2(0) == 1;
      DimValueZero(bases[1..], j);
      XorIntZero(bases[0][j]);
    } else {
      assert Pow2(i) == 2 * Pow2(i - 1);
      DimValueOfBit(bases[1..], i - 1, j);
      XorIntZero(bases[i][j]);
    }
  }

  // The coordinate with the single bit i of in-dimension d set.
  ghost function BitCoord(dims: seq<Dim>, d: nat, i: nat): (x: Coord)
    requires d < |dims|
    ensures x.Keys == Names(dims)
  {
    map n | n in Names(dims) :: if n == dims[d].name then Pow2(i) else 0
  }

  ghost function ZeroCoord(dims: seq<Dim>): (x: Coord)
    ensures x.Keys == Names(dims)
  {
    map n | n in Names(dims) :: 0
  }

  lemma BitCoordInRange(dims: seq<Dim>, d: nat, i: nat)
    requires Distinct(dims) && d < |dims| && i < dims[d].bits
    ensures InRange(dims, BitCoord(dims, d, i)) && InRange(dims, ZeroCoord(dims))
    ensures dims[d].name in Names(dims) && BitCoord(dims, d, i)[dims[d].name] == Pow2(i)
  {
    Pow2Increases(i, dims[d].bits);
    forall k | 0 <= k < |dims| ensures dims[k].name in Names(dims) && BitCoord(dims, d, i)[dims[k].name] < Pow2(dims[k].bits) {
      assert dims[k].name in Names(dims);
      assert k != d ==> dims[k].name != dims[d].name;
    }
    forall k | 0 <= k < |dims| ensures dims[k].name in Names(dims) && ZeroCoord(dims)[dims[k].name] < Pow2(dims[k].bits) {
      assert dims[k].name in Names(dims);
    }
  }

  // All values are 0, except bit i of in-dimension d if it is among them.
  ghost predicate OnlyBit(ins: seq<InDim>, x: Coord, d: nat, i: nat)
    requires Covers(InDims(ins), x)
  {
    forall k :: 0 <= k < |ins| ==> InDims(ins)[k].name in x && x[InDims(ins)[k].name] == if k == d then Pow2(i) else 0
  }

  lemma {:induction false} OutValueOfNothing(ins: seq<InDim>, x: Coord, j: nat)
    requires Covers(InDims(ins), x) && AllHave(ins, j) && OnlyBit(ins, x, |ins|, 0)
    ensures OutValue(ins, x, j) == 0
  {
    hide DimValue;
    if |ins| > 0 {
      assert InDims(ins)[0].name in x && x[InDims(ins)[0].name] == 0;
      TailCovers(ins, x, j);
      assert forall k :: 0 <= k < |ins| - 1 ==> InDims(ins[1..])[k] == InDims(ins)[k + 1];
      OutValueOfNothing(ins[1..], x, j);
      DimValueZero(ins[0].bases, j);
      XorIntZero(0);
    }
  }

  lemma TailCovers(ins: seq<InDim>, x: Coord, j: nat)
    requires |ins| > 0 && Covers(InDims(ins), x) && AllHave(ins, j)
    ensures Covers(InDims(ins[1..]), x) && AllHave(ins[1..], j)
  {
    assert forall k :: 0 <= k < |ins| - 1 ==> InDims(ins[1..])[k] == InDims(ins)[k + 1] && ins[1..][k] == ins[k + 1];
    forall k | 0 <= k < |InDims(ins[1..])| ensures InDims(ins[1..])[k].name in x {
      assert InDims(ins)[k + 1].name in x;
    }
  }

  /** The image of a single in bit is its basis vector. */
  lemma {:induction false} OutValueOfBit(ins: seq<InDim>, x: Coord, d: nat, i: nat, j: nat)
    requires Covers(InDims(ins), x) && AllHave(ins, j) && d < |ins| && i < |ins[d].bases| && OnlyBit(ins, x, d, i)
    ensures OutValue(ins, x, j) == ins[d].bases[i][j]
  {
    hide DimValue, XorInt;
    assert InDims(ins)[0].name in x;
    TailCovers(ins, x, j);
    assert forall k :: 0 <= k < |ins| - 1 ==> InDims(ins[1..])[k] == InDims(ins)[k + 1];
    if d == 0 {
      OutValueOfNothing(ins[1..], x, j);
      DimValueOfBit(ins[0].bases, i, j);
      XorIntZero(ins[0].bases[i][j]);
    } else {
      OutValueOfBit(ins[1..], x, d - 1, i, j);
      assert x[InDims(ins)[0].name] == 0;
      DimValueZero(ins[0].bases, j);
      XorIntZero(ins[d].bases[i][j]);
    }
  }

  lemma ApplyOfBit(l: Layout, d: nat, i: nat, j: nat)
    requires WellFormed(l) && InWidths(l.ins, |l.outs|) && d < |l.ins| && i < |l.ins[d].bases| && j < |l.outs|
    ensures InRange(InDims(l.ins), BitCoord(InDims(l.ins), d, i)) && InRange(InDims(l.ins), ZeroCoord(InDims(l.ins)))
    ensures l.outs[j].name in Apply(l, BitCoord(InDims(l.ins), d, i)) && l.outs[j].name in Apply(l, ZeroCoord(InDims(l.ins)))
    ensures Apply(l, BitCoord(InDims(l.ins), d, i))[l.outs[j].name] == l.ins[d].bases[i][j]
    ensures Apply(l, ZeroCoord(InDims(l.ins)))[l.outs[j].name] == 0
  {
    hide OutValue, Apply;
    var dims := InDims(l.ins);
    var x, z := BitCoord(dims, d, i), ZeroCoord(dims);
    BitCoordInRange(dims, d, i);
    WellFormedHave(l, j);
    assert OnlyBit(l.ins, x, d, i) && OnlyBit(l.ins, z, |l.ins|, 0);
    OutValueOfBit(l.ins, x, d, i, j);
    OutValueOfNothing(l.ins, z, j);
    ApplyAt(l, x, j);
    ApplyAt(l, z, j);
  }

  // ---------- entries of a sublayout ----------

  lemma {:induction false} FilterInsFrom(ins: seq<InDim>, names: set<Name>, k: nat) returns (d: nat)
    requires k < |FilterIns(ins, names)|
    ensures d < |ins| && FilterIns(ins, names)[k] == ins[d] && ins[d].name in names
  {
    if ins[0].name in names {
      if k == 0 {
        d := 0;
      } else {
        d := FilterInsFrom(ins[1..], names, k - 1);
        d := d + 1;
      }
    } else {
      d := FilterInsFrom(ins[1..], names, k);
      d := d + 1;
    }
  }

  lemma KeepHead(outs: seq<Dim>, names: set<Name>, v: seq<nat>)
    requires |v| == |outs| && FilterDims(outs, names) != []
    ensures |outs| > 0
    ensures KeepVec(outs, names, v) == (if outs[0].name in names then [v[0]] else []) + KeepVec(outs[1..], names, v[1..])
    ensures FilterDims(outs, names) == (if outs[0].name in names then [outs[0]] else []) + FilterDims(outs[1..], names)
  {
  }

  lemma {:induction false} KeepVecFrom(outs: seq<Dim>, names: set<Name>, v: seq<nat>, k: nat) returns (j: nat)
    requires |v| == |outs| && k < |FilterDims(outs, names)|
    ensures j < |outs| && FilterDims(outs, names)[k] == outs[j] && outs[j].name in names && KeepVec(outs, names, v)[k] == v[j]
  {
    hide KeepVec, FilterDims;
    KeepHead(outs, names, v);
    if outs[0].name in names {
      if k == 0 {
        j := 0;
      } else {
        j := KeepVecFrom(outs[1..], names, v[1..], k - 1);
        j := j + 1;
      }
    } else {
      j := KeepVecFrom(outs[1..], names, v[1..], k);
      j := j + 1;
    }
  }

  // Every entry of a sublayout is an entry of the layout, at dimensions of the same names.
  lemma SublayoutEntry(l: Layout, inNames: set<Name>, outNames: set<Name>, k: nat, i: nat, q: nat) returns (d: nat, j: nat)
    requires InWidths(l.ins, |l.outs|) && k < |Sublayout(l, inNames, outNames).ins|
    requires i < |Sublayout(l, inNames, outNames).ins[k].bases| && q < |Sublayout(l, inNames, outNames).outs|
    ensures var s := Sublayout(l, inNames, outNames);
            && d < |l.ins| && i < |l.ins[d].bases| && j < |l.outs| && |l.ins[d].bases[i]| == |l.outs|
            && s.ins[k].name == l.ins[d].name && l.ins[d].name in inNames && |s.ins[k].bases| == |l.ins[d].bases|
            && s.outs[q] == l.outs[j] && l.outs[j].name in outNames
            && |s.ins[k].bases[i]| == |s.outs| && s.ins[k].bases[i][q] == l.ins[d].bases[i][j]
  {
    FilterWidths(l.ins, inNames, |l.outs|);
    var f := FilterIns(l.ins, inNames);
    d := FilterInsFrom(l.ins, inNames, k);
    j := KeepVecFrom(l.outs, outNames, f[k].bases[i], q);
    assert InDims(Sublayout(l, inNames, outNames).ins)[k] == InDims(f)[k];
  }

  // Conversely, every entry between dimensions that are kept is an entry of the sublayout.
  lemma {:induction false} FilterInsTo(ins: seq<InDim>, names: set<Name>, d: nat) returns (k: nat)
    requires d < |ins| && ins[d].name in names
    ensures k < |FilterIns(ins, names)| && FilterIns(ins, names)[k] == ins[d]
  {
    var head := if ins[0].name in names then 1 else 0;
    if d == 0 {
      k := 0;
    } else {
      k := FilterInsTo(ins[1..], names, d - 1);
      k := k + head;
    }
  }

  lemma KeepHeadOf(outs: seq<Dim>, names: set<Name>, v: seq<nat>)
    requires |v| == |outs| > 0
    ensures KeepVec(outs, names, v) == (if outs[0].name in names then [v[0]] else []) + KeepVec(outs[1..], names, v[1..])
    ensures FilterDims(outs, names) == (if outs[0].name in names then [outs[0]] else []) + FilterDims(outs[1..], names)
  {
  }

  lemma {:induction false} KeepVecTo(outs: seq<Dim>, names: set<Name>, v: seq<nat>, j: nat) returns (q: nat)
    requires |v| == |outs| && j < |outs| && outs[j].name in names
    ensures q < |FilterDims(outs, names)| && FilterDims(outs, names)[q] == outs[j] && KeepVec(outs, names, v)[q] == v[j]
  {
    hide KeepVec, FilterDims;
    KeepHeadOf(outs, names, v);
    if j == 0 {
      q := 0;
    } else {
      q := KeepVecTo(outs[1..], names, v[1..], j - 1);
      q := q + if outs[0].name in names then 1 else 0;
    }
  }

  lemma EntryInSublayout(l: Layout, inNames: set<Name>, outNames: set<Name>, d: nat, i: nat, j: nat) returns (k: nat, q: nat)
    requires InWidths(l.ins, |l.outs|) && d < |l.ins| && i < |l.ins[d].bases| && j < |l.outs|
    requires l.ins[d].name in inNames && l.outs[j].name in outNames
    ensures |l.ins[d].bases[i]| == |l.outs|
    ensures var s := Sublayout(l, inNames, outNames);
            && k < |s.ins| && q < |s.outs| && i < |s.ins[k].bases| && |s.ins[k].bases[i]| == |s.outs|
            && s.ins[k].name == l.ins[d].name && s.outs[q] == l.outs[j]
            && s.ins[k].bases[i][q] == l.ins[d].bases[i][j]
  {
    FilterWidths(l.ins, inNames, |l.outs|);
    k := FilterInsTo(l.ins, inNames, d);
    q := KeepVecTo(l.outs, outNames, l.ins[d].bases[i], j);
    assert InDims(Sublayout(l, inNames, outNames).ins)[k] == InDims(FilterIns(l.ins, inNames))[k];
  }

  // After dropping a diagonal dimension the others are as diagonal as they were.
  lemma RemainsDiagonalIff(l: Layout, m: Name, n: Name)
    requires WellFormed(l) && InWidths(l.ins, |l.outs|) && Diagonal(l, m) && m != n
    ensures InWidths(Remaining(l, {m}).ins, |Remaining(l, {m}).outs|)
    ensures Diagonal(Remaining(l, {m}), n) <==> Diagonal(l, n)
  {
    hide Sublayout;
    var ins, outs := Names(InDims(l.ins)) - {m}, Names(l.outs) - {m};
    var s := Remaining(l, {m});
    RemainingWidths(l, m);
    if Diagonal(l, n) {
      DiagonalRemains(l, m, n);
    }
    if Diagonal(s, n) {
      forall d, i, j | 0 <= d < |l.ins| && 0 <= i < |l.ins[d].bases| && 0 <= j < |l.outs| ensures EntryOk(l, n, d, i, j) {
        EntryFromRest(l, m, n, d, i, j);
      }
    }
  }

  lemma RemainingWidths(l: Layout, m: Name)
    requires WellFormed(l) && InWidths(l.ins, |l.outs|)
    ensures InWidths(Remaining(l, {m}).ins, |Remaining(l, {m}).outs|)
  {
    SublayoutWellFormed(l, Names(InDims(l.ins)) - {m}, Names(l.outs) - {m});
    WellFormedWidths(Remaining(l, {m}));
  }

  lemma EntryFromRest(l: Layout, m: Name, n: Name, d: nat, i: nat, j: nat)
    requires WellFormed(l) && InWidths(l.ins, |l.outs|) && Diagonal(l, m) && m != n
    requires InWidths(Remaining(l, {m}).ins, |Remaining(l, {m}).outs|) && Diagonal(Remaining(l, {m}), n)
    requires d < |l.ins| && i < |l.ins[d].bases| && j < |l.outs|
    ensures EntryOk(l, n, d, i, j)
  {
    hide Sublayout;
    assert EntryOk(l, m, d, i, j);
    if l.ins[d].name != m && l.outs[j].name != m {
      InDimsNamed(l.ins, d);
      InNames(l.outs, j);
      var k, q := EntryInSublayout(l, Names(InDims(l.ins)) - {m}, Names(l.outs) - {m}, d, i, j);
      assert EntryOk(Remaining(l, {m}), n, k, i, q);
    }
  }

  lemma InDimsNamed(ins: seq<InDim>, d: nat)
    requires d < |ins|
    ensures ins[d].name in Names(InDims(ins))
  {
    InNames(InDims(ins), d);
  }

  lemma BlockIsZero(l: Layout, n: Name, inNames: set<Name>, outNames: set<Name>)
    requires InWidths(l.ins, |l.outs|) && Diagonal(l, n)
    requires (n in inNames && inNames == {n} && n !in outNames) || (n !in inNames && outNames == {n})
    ensures SublayoutIsZero(l, inNames, outNames)
  {
    var s := Sublayout(l, inNames, outNames);
    forall k, i, b | 0 <= k < |s.ins| && 0 <= i < |s.ins[k].bases| && b in s.ins[k].bases[i] ensures b == 0 {
      SublayoutWidth(l, inNames, outNames, k, i);
      var q :| 0 <= q < |s.ins[k].bases[i]| && s.ins[k].bases[i][q] == b;
      var d, j := SublayoutEntry(l, inNames, outNames, k, i, q);
      assert EntryOk(l, n, d, i, j);
    }
  }

  lemma SublayoutWidth(l: Layout, inNames: set<Name>, outNames: set<Name>, k: nat, i: nat)
    requires InWidths(l.ins, |l.outs|) && k < |Sublayout(l, inNames, outNames).ins|
    requires i < |Sublayout(l, inNames, outNames).ins[k].bases|
    ensures |Sublayout(l, inNames, outNames).ins[k].bases[i]| == |Sublayout(l, inNames, outNames).outs|
  {
    FilterWidths(l.ins, inNames, |l.outs|);
  }

  // What is left after dropping n is diagonal in the other dimensions it was diagonal in.
  lemma DiagonalRemains(l: Layout, n: Name, m: Name)
    requires WellFormed(l) && InWidths(l.ins, |l.outs|) && Diagonal(l, m)
    ensures InWidths(Remaining(l, {n}).ins, |Remaining(l, {n}).outs|) && Diagonal(Remaining(l, {n}), m)
  {
    var ins, outs := Names(InDims(l.ins)) - {n}, Names(l.outs) - {n};
    var s := Remaining(l, {n});
    SublayoutWellFormed(l, ins, outs);
    WellFormedWidths(s);
    forall k, i, q | 0 <= k < |s.ins| && 0 <= i < |s.ins[k].bases| && 0 <= q < |s.outs| ensures EntryOk(s, m, k, i, q) {
      var d, j := SublayoutEntry(l, ins, outs, k, i, q);
      assert EntryOk(l, m, d, i, j);
    }
  }

  // ---------- the identity block ----------

  lemma ColumnDecides(f: Layout, s: Layout, c: nat)
    requires WellFormed(f) && WellFormed(s) && MatrixOf(f) == MatrixOf(s) && c < Total(InDims(s.ins)) == Total(InDims(f.ins))
    requires |f.outs| == |s.outs| == 1 && f.outs[0].bits == s.outs[0].bits
    ensures |FlatBases(f.ins)[c]| == |FlatBases(s.ins)[c]| == 1 && FlatBases(f.ins)[c][0] == FlatBases(s.ins)[c][0]
  {
    hide FlatBases;
    FlatBasesVectors(f.outs, f.ins);
    FlatBasesVectors(s.outs, s.ins);
    var a, b, n := FlatBases(f.ins)[c], FlatBases(s.ins)[c], s.outs[0].bits;
    assert IsVector(f.outs, a) && IsVector(s.outs, b);
    OneDimVec(f.outs, a);
    OneDimVec(s.outs, b);
    forall r | 0 <= r < n ensures ToBits(a[0], n)[r] == ToBits(b[0], n)[r] {
      MatrixEntry(f, r, c);
      MatrixEntry(s, r, c);
    }
    assert ToBits(a[0], n) == ToBits(b[0], n);
    BitsDecide(a[0], b[0], n);
  }

  lemma OneDimVec(dims: seq<Dim>, v: seq<nat>)
    requires |dims| == |v| == 1
    ensures FlatVec(dims, v) == ToBits(v[0], dims[0].bits) && Total(dims) == dims[0].bits
  {
    assert |dims[1..]| == 0 && |v[1..]| == 0;
  }

  lemma FlattenedOne(s: Layout, n: Name)
    requires WellFormed(s) && InWidths(s.ins, |s.outs|) && |s.ins| == |s.outs| == 1 && s.ins[0].name == s.outs[0].name == n && Diagonal(s, n)
    ensures FlattenedIsIdentity(s)
  {
    hide Flattened;
    var f := Flattened(s);
    FlattenedMatrix(s);
    assert |s.outs[1..]| == 0 && |s.ins[1..]| == 0;
    assert FlatBases(s.ins) == s.ins[0].bases;
    assert Total(s.outs) == s.outs[0].bits;
    forall b | 0 <= b < |f.ins[0].bases| ensures f.ins[0].bases[b] == [Pow2(b)] {
      ColumnDecides(f, s, b);
      assert EntryOk(s, n, 0, b, 0);
    }
  }

  // The converse: the only block of a flattened identity is diagonal.
  lemma OneFlattened(s: Layout, n: Name, i: nat)
    requires WellFormed(s) && InWidths(s.ins, |s.outs|) && |s.ins| == |s.outs| == 1 && s.ins[0].name == s.outs[0].name == n
    requires FlattenedIsIdentity(s) && i < |s.ins[0].bases|
    ensures |s.ins[0].bases[i]| == 1 && s.ins[0].bases[i][0] == Pow2(i)
  {
    hide Flattened;
    var f := Flattened(s);
    FlattenedMatrix(s);
    assert |s.outs[1..]| == 0 && |s.ins[1..]| == 0;
    assert FlatBases(s.ins) == s.ins[0].bases;
    assert Total(s.outs) == s.outs[0].bits;
    ColumnDecides(f, s, i);
    assert f.ins[0].bases[i] == [Pow2(i)];
  }

  lemma SquareEntry(l: Layout, n: Name, d: nat, i: nat, j: nat)
    requires WellFormed(l) && InWidths(l.ins, |l.outs|) && n in Names(InDims(l.ins)) && n in Names(l.outs) && FlattenedSquare(l, n)
    requires d < |l.ins| && i < |l.ins[d].bases| && j < |l.outs| && l.ins[d].name == n && l.outs[j].name == n
    ensures |l.ins[d].bases[i]| == |l.outs| && l.ins[d].bases[i][j] == Pow2(i)
  {
    hide FlattenedIsIdentity;
    var s := Sublayout(l, {n}, {n});
    SublayoutWellFormed(l, {n}, {n});
    FilterInsDims(l.ins, {n});
    FilterOne(l.outs, n);
    FilterOne(InDims(l.ins), n);
    assert s.outs[0].name == n && InDims(s.ins)[0].name == n;
    hide Sublayout;
    var k, q := EntryInSublayout(l, {n}, {n}, d, i, j);
    OneFlattened(s, n, i);
  }

  lemma ZeroEntry(l: Layout, inNames: set<Name>, outNames: set<Name>, d: nat, i: nat, j: nat)
    requires InWidths(l.ins, |l.outs|) && d < |l.ins| && i < |l.ins[d].bases| && j < |l.outs|
    requires l.ins[d].name in inNames && l.outs[j].name in outNames && SublayoutIsZero(l, inNames, outNames)
    ensures |l.ins[d].bases[i]| == |l.outs| && l.ins[d].bases[i][j] == 0
  {
    hide Sublayout;
    var k, q := EntryInSublayout(l, inNames, outNames, d, i, j);
    assert Sublayout(l, inNames, outNames).ins[k].bases[i][q] in Sublayout(l, inNames, outNames).ins[k].bases[i];
  }

  /** What can be divided off is diagonal. */
  lemma TrivialIsDiagonal(l: Layout, n: Name)
    requires WellFormed(l) && InWidths(l.ins, |l.outs|) && n in Names(InDims(l.ins)) && n in Names(l.outs)
    requires IsTrivialOver(l, {n})
    ensures Diagonal(l, n) && Bits1(InDims(l.ins), n) == Bits1(l.outs, n)
  {
    hide FlattenedIsIdentity, SublayoutIsZero, Sublayout;
    SublayoutWellFormed(l, {n}, {n});
    WellFormedWidths(Sublayout(l, {n}, {n}));
    assert n in {n};
    forall d, i, j | 0 <= d < |l.ins| && 0 <= i < |l.ins[d].bases| && 0 <= j < |l.outs| ensures EntryOk(l, n, d, i, j) {
      InDimsNamed(l.ins, d);
      InNames(l.outs, j);
      if l.ins[d].name == n && l.outs[j].name == n {
        SquareEntry(l, n, d, i, j);
      } else if l.outs[j].name == n {
        ZeroEntry(l, Names(InDims(l.ins)) - {n}, {n}, d, i, j);
      } else if l.ins[d].name == n {
        ZeroEntry(l, {n}, Names(l.outs) - {n}, d, i, j);
      }
    }
  }

  lemma SquareIsDiagonal(l: Layout, n: Name)
    requires WellFormed(l) && InWidths(l.ins, |l.outs|) && Diagonal(l, n) && n in Names(InDims(l.ins)) && n in Names(l.outs)
    ensures FlattenedSquare(l, n)
  {
    var s := Sublayout(l, {n}, {n});
    SublayoutWellFormed(l, {n}, {n});
    WellFormedWidths(s);
    FilterInsDims(l.ins, {n});
    FilterOne(l.outs, n);
    FilterOne(InDims(l.ins), n);
    assert s.outs[0].name == n && InDims(s.ins)[0].name == n;
    forall k, i, q | 0 <= k < |s.ins| && 0 <= i < |s.ins[k].bases| && 0 <= q < |s.outs| ensures EntryOk(s, n, k, i, q) {
      var d, j := SublayoutEntry(l, {n}, {n}, k, i, q);
      assert EntryOk(l, n, d, i, j);
    }
    FlattenedOne(s, n);
  }

  ghost predicate FlattenedSquare(l: Layout, n: Name)
    requires InWidths(l.ins, |l.outs|)
  {
    InWidths(Sublayout(l, {n}, {n}).ins, |Sublayout(l, {n}, {n}).outs|) && FlattenedIsIdentity(Sublayout(l, {n}, {n}))
  }

  /** A dimension of one size that is diagonal can be divided off. */
  lemma DiagonalIsTrivial(l: Layout, n: Name)
    requires WellFormed(l) && InWidths(l.ins, |l.outs|) && Diagonal(l, n) && n in Names(InDims(l.ins)) && n in Names(l.outs)
    ensures TrivialOverDefined(l, {n}) && (IsTrivialOver(l, {n}) <==> Bits1(InDims(l.ins), n) == Bits1(l.outs, n))
  {
    hide FlattenedIsIdentity, Sublayout, Diagonal;
    SquareIsDiagonal(l, n);
    BlockIsZero(l, n, Names(InDims(l.ins)) - {n}, {n});
    BlockIsZero(l, n, {n}, Names(l.outs) - {n});
  }

  /** Exactly the diagonal dimensions of one size can be divided off. */
  lemma TrivialIff(l: Layout, n: Name)
    requires WellFormed(l) && InWidths(l.ins, |l.outs|) && n in Names(InDims(l.ins)) && n in Names(l.outs)
    ensures TrivialOverDefined(l, {n})
    ensures IsTrivialOver(l, {n}) <==> Diagonal(l, n) && Bits1(InDims(l.ins), n) == Bits1(l.outs, n)
  {
    hide IsTrivialOver, Diagonal;
    if Diagonal(l, n) {
      DiagonalIsTrivial(l, n);
    }
    if IsTrivialOver(l, {n}) {
      TrivialIsDiagonal(l, n);
    }
  }
}
