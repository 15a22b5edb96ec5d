/** Sublayouts and quotients (lib/Tools/LinearLayout.cpp:660-793). */
module Quotient {
  import opened Wrappers
  import opened F2Matrix
  import opened Words
  import opened Layout
  import opened LayoutMatrix
  import opened Reshape

  // ---------- sublayout ----------

  function FilterIns(ins: seq<InDim>, names: set<Name>): (r: seq<InDim>)
  {
    if |ins| == 0 then []
    else (if ins[0].name in names then [ins[0]] else []) + FilterIns(ins[1..], names)
  }

  function FilterDims(dims: seq<Dim>, names: set<Name>): (r: seq<Dim>)
    ensures |r| <= |dims|
    ensures forall i :: 0 <= i < |r| ==> r[i] in dims && r[i].name in names
  {
    if |dims| == 0 then []
    else (if dims[0].name in names then [dims[0]] else []) + FilterDims(dims[1..], names)
  }

  lemma FilterDimsHead(dims: seq<Dim>, names: set<Name>)
    requires |dims| > 0
    ensures FilterDims(dims, names) == (if dims[0].name in names then [dims[0]] else []) + FilterDims(dims[1..], names)
  {
  }

  lemma FilterInsHead(ins: seq<InDim>, names: set<Name>)
    requires |ins| > 0
    ensures FilterIns(ins, names) == (if ins[0].name in names then [ins[0]] else []) + FilterIns(ins[1..], names)
  {
  }

  // The entries of a basis vector at the kept out-dimensions.
  function KeepVec(outs: seq<Dim>, names: set<Name>, v: seq<nat>): (r: seq<nat>)
    requires |v| == |outs|
    ensures |r| == |FilterDims(outs, names)|
  {
    if |outs| == 0 then []
    else (if outs[0].name in names then [v[0]] else []) + KeepVec(outs[1..], names, v[1..])
  }

  function KeepVecs(outs: seq<Dim>, names: set<Name>, bases: seq<seq<nat>>): (r: seq<seq<nat>>)
    requires Widths(bases, |outs|)
    ensures |r| == |bases| && forall i :: 0 <= i < |r| ==> r[i] == KeepVec(outs, names, bases[i])
  {
    seq(|bases|, i requires 0 <= i < |bases| => KeepVec(outs, names, bases[i]))
  }

  function KeepIns(outs: seq<Dim>, names: set<Name>, ins: seq<InDim>): (r: seq<InDim>)
    requires InWidths(ins, |outs|)
    ensures InDims(r) == InDims(ins)
    ensures |r| == |ins| && forall d :: 0 <= d < |r| ==> r[d].bases == KeepVecs(outs, names, ins[d].bases)
  {
    seq(|ins|, d requires 0 <= d < |ins| => InDim(ins[d].name, KeepVecs(outs, names, ins[d].bases)))
  }

  lemma {:induction false} FilterWidths(ins: seq<InDim>, names: set<Name>, k: nat)
    requires InWidths(ins, k)
    ensures InWidths(FilterIns(ins, names), k)
  {
    if |ins| > 0 {
      assert InWidths(ins[1..], k);
      FilterWidths(ins[1..], names, k);
      assert Widths(ins[0].bases, k);
    }
  }

  /** `sublayout`: only these in-dimensions and out-dimensions, in the layout's own order. */
  function Sublayout(l: Layout, inNames: set<Name>, outNames: set<Name>): (s: Layout)
    requires InWidths(l.ins, |l.outs|)
    ensures s.outs == FilterDims(l.outs, outNames) && InDims(s.ins) == InDims(FilterIns(l.ins, inNames))
  {
    FilterWidths(l.ins, inNames, |l.outs|);
    Layout(KeepIns(l.outs, outNames, FilterIns(l.ins, inNames)), FilterDims(l.outs, outNames))
  }

  // `sublayoutIsZero`
  predicate SublayoutIsZero(l: Layout, inNames: set<Name>, outNames: set<Name>)
    requires InWidths(l.ins, |l.outs|)
  {
    AllZero(Sublayout(l, inNames, outNames).ins)
  }

  predicate AllZero(ins: seq<InDim>) {
    forall d :: 0 <= d < |ins| ==> forall i :: 0 <= i < |ins[d].bases| ==> forall b :: b in ins[d].bases[i] ==> b == 0
  }

  // ---------- what a sublayout computes ----------

  lemma {:induction false} FilterDimsDistinct(dims: seq<Dim>, names: set<Name>)
    requires Distinct(dims)
    ensures Distinct(FilterDims(dims, names))
  {
    if |dims| > 0 {
      var rest := FilterDims(dims[1..], names);
      assert forall i :: 0 <= i < |dims| - 1 ==> dims[1..][i] == dims[i + 1];
      FilterDimsDistinct(dims[1..], names);
      forall i | 0 <= i < |rest| ensures rest[i].name != dims[0].name {
        assert rest[i] in dims[1..];
        var k :| 0 <= k < |dims| - 1 && dims[1..][k] == rest[i];
      }
    }
  }

  lemma {:induction false} FilterInsDims(ins: seq<InDim>, names: set<Name>)
    ensures InDims(FilterIns(ins, names)) == FilterDims(InDims(ins), names)
  {
    if |ins| > 0 {
      FilterInsDims(ins[1..], names);
      FilterInsHead(ins, names);
      FilterDimsHead(InDims(ins), names);
      hide FilterIns, FilterDims;
      assert InDims(ins)[1..] == InDims(ins[1..]);
      InDimsAppend(if ins[0].name in names then [ins[0]] else [], FilterIns(ins[1..], names));
      assert InDims([ins[0]]) == [InDims(ins)[0]] && InDims([]) == [];
    }
  }

  lemma InDimsAppend(a: seq<InDim>, b: seq<InDim>)
    ensures InDims(a + b) == InDims(a) + InDims(b)
  {
  }

  // Kept dimensions before position i.
  function Kept(outs: seq<Dim>, names: set<Name>, i: nat): nat
    requires i <= |outs|
  {
    if i == 0 then 0 else (if outs[0].name in names then 1 else 0) + Kept(outs[1..], names, i - 1)
  }

  lemma {:induction false} KeepVecAt(outs: seq<Dim>, names: set<Name>, v: seq<nat>, i: nat)
    requires |v| == |outs| && i < |outs| && outs[i].name in names
    ensures Kept(outs, names, i) < |FilterDims(outs, names)|
    ensures FilterDims(outs, names)[Kept(outs, names, i)] == outs[i]
    ensures KeepVec(outs, names, v)[Kept(outs, names, i)] == v[i]
  {
    FilterDimsHead(outs, names);
    KeepVecHead(outs, names, v);
    hide FilterDims, KeepVec;
    if i > 0 {
      KeepVecAt(outs[1..], names, v[1..], i - 1);
      KeptHead(outs, names, i);
      var k := Kept(outs[1..], names, i - 1);
      hide Kept;
      if outs[0].name in names {
        AppendAt([outs[0]], FilterDims(outs[1..], names), k);
        AppendAt([v[0]], KeepVec(outs[1..], names, v[1..]), k);
      } else {
        NothingBefore(FilterDims(outs[1..], names));
        NothingBefore(KeepVec(outs[1..], names, v[1..]));
      }
    }
  }

  lemma KeptHead(outs: seq<Dim>, names: set<Name>, i: nat)
    requires 0 < i <= |outs|
    ensures Kept(outs, names, i) == (if outs[0].name in names then 1 else 0) + Kept(outs[1..], names, i - 1)
  {
  }

  lemma KeepVecHead(outs: seq<Dim>, names: set<Name>, v: seq<nat>)
    requires |v| == |outs| > 0
    ensures KeepVec(outs, names, v) == (if outs[0].name in names then [v[0]] else []) + KeepVec(outs[1..], names, v[1..])
  {
  }

  // Entry j of a kept vector is the entry of the original at the same dimension.
  lemma KeepVecPosition(outs: seq<Dim>, names: set<Name>, v: seq<nat>, j: nat, i: nat)
    requires |v| == |outs| && Distinct(outs) && j < |FilterDims(outs, names)|
    requires i < |outs| && outs[i] == FilterDims(outs, names)[j]
    ensures KeepVec(outs, names, v)[j] == v[i]
  {
    KeepVecAt(outs, names, v, i);
    FilterDimsDistinct(outs, names);
  }

  lemma {:induction false} KeepDimValue(outs: seq<Dim>, names: set<Name>, bases: seq<seq<nat>>, v: nat, j: nat, i: nat)
    requires Widths(bases, |outs|) && Distinct(outs) && j < |FilterDims(outs, names)|
    requires i < |outs| && outs[i] == FilterDims(outs, names)[j]
    ensures DimValue(KeepVecs(outs, names, bases), v, j) == DimValue(bases, v, i)
  {
    if |bases| > 0 {
      assert KeepVecs(outs, names, bases)[1..] == KeepVecs(outs, names, bases[1..]);
      KeepVecPosition(outs, names, bases[0], j, i);
      KeepDimValue(outs, names, bases[1..], v / 2, j, i);
    }
  }

  lemma {:induction false} KeepOutValue(outs: seq<Dim>, names: set<Name>, ins: seq<InDim>, x: Coord, j: nat, i: nat)
    requires InWidths(ins, |outs|) && Distinct(outs) && j < |FilterDims(outs, names)| && Covers(InDims(ins), x)
    requires i < |outs| && outs[i] == FilterDims(outs, names)[j]
    ensures OutValue(KeepIns(outs, names, ins), x, j) == OutValue(ins, x, i)
  {
    if |ins| > 0 {
      assert InDims(ins)[0].name in x;
      assert InDims(ins)[1..] == InDims(ins[1..]);
      assert forall k :: 0 <= k < |ins| - 1 ==> InDims(ins[1..])[k] == InDims(ins)[k + 1];
      assert KeepIns(outs, names, ins)[1..] == KeepIns(outs, names, ins[1..]);
      KeepOutValue(outs, names, ins[1..], x, j, i);
      KeepDimValue(outs, names, ins[0].bases, x[ins[0].name], j, i);
    }
  }

  // ---------- splitting the in-dimensions in two ----------

  lemma {:induction false} FilterCovers(ins: seq<InDim>, names: set<Name>, x: Coord)
    requires Covers(InDims(ins), x)
    ensures Covers(InDims(FilterIns(ins, names)), x)
  {
    FilterInsDims(ins, names);
    var r := FilterDims(InDims(ins), names);
    forall i | 0 <= i < |r| ensures r[i].name in x {
      assert r[i] in InDims(ins);
    }
  }

  // Each in-dimension is in exactly one of the two name sets.
  ghost predicate Partition(ins: seq<InDim>, p: set<Name>, q: set<Name>) {
    forall d :: 0 <= d < |ins| ==> (ins[d].name in p <==> ins[d].name !in q)
  }

  lemma {:induction false} SplitOutValue(ins: seq<InDim>, p: set<Name>, q: set<Name>, x: Coord, k: nat, i: nat)
    requires InWidths(ins, k) && i < k && Covers(InDims(ins), x) && Partition(ins, p, q)
    ensures InWidths(FilterIns(ins, p), k) && InWidths(FilterIns(ins, q), k)
    ensures Covers(InDims(FilterIns(ins, p)), x) && Covers(InDims(FilterIns(ins, q)), x)
    ensures OutValue(ins, x, i) == XorInt(OutValue(FilterIns(ins, p), x, i), OutValue(FilterIns(ins, q), x, i))
  {
    FilterWidths(ins, p, k);
    FilterWidths(ins, q, k);
    FilterCovers(ins, p, x);
    FilterCovers(ins, q, x);
    if |ins| > 0 {
      var rest := ins[1..];
      assert InDims(ins)[0].name in x && InDims(ins)[1..] == InDims(rest);
      assert forall d :: 0 <= d < |rest| ==> rest[d] == ins[d + 1] && InDims(rest)[d] == InDims(ins)[d + 1];
      SplitOutValue(rest, p, q, x, k, i);
      var v := DimValue(ins[0].bases, x[ins[0].name], i);
      var a, b := OutValue(FilterIns(rest, p), x, i), OutValue(FilterIns(rest, q), x, i);
      XorIntAssoc(v, a, b);
      if ins[0].name in p {
        FilterHead(ins, p, x, k, i);
        assert FilterIns(ins, q) == FilterIns(rest, q);
      } else {
        FilterHead(ins, q, x, k, i);
        assert FilterIns(ins, p) == FilterIns(rest, p);
        XorIntComm(v, a);
        XorIntAssoc(a, v, b);
      }
    }
  }

  lemma FilterHead(ins: seq<InDim>, p: set<Name>, x: Coord, k: nat, i: nat)
    requires |ins| > 0 && ins[0].name in p && InWidths(FilterIns(ins, p), k) && i < k
    requires Covers(InDims(FilterIns(ins, p)), x) && Covers(InDims(FilterIns(ins[1..], p)), x)
    requires InWidths(FilterIns(ins[1..], p), k) && ins[0].name in x && Has0(ins[0].bases, i)
    ensures OutValue(FilterIns(ins, p), x, i) ==
            XorInt(DimValue(ins[0].bases, x[ins[0].name], i), OutValue(FilterIns(ins[1..], p), x, i))
  {
    assert FilterIns(ins, p)[1..] == FilterIns(ins[1..], p);
  }

  ghost predicate Has0(bases: seq<seq<nat>>, j: nat) {
    forall i :: 0 <= i < |bases| ==> j < |bases[i]|
  }

  lemma {:induction false} ZeroDimValue(bases: seq<seq<nat>>, v: nat, j: nat)
    requires Has0(bases, j) && forall i :: 0 <= i < |bases| ==> forall b :: b in bases[i] ==> b == 0
    ensures DimValue(bases, v, j) == 0
  {
    if |bases| > 0 {
      ZeroDimValue(bases[1..], v / 2, j);
      assert bases[0][j] in bases[0];
    }
  }

  lemma {:induction false} ZeroOutValue(ins: seq<InDim>, x: Coord, k: nat, j: nat)
    requires InWidths(ins, k) && j < k && Covers(InDims(ins), x) && AllZero(ins)
    ensures OutValue(ins, x, j) == 0
  {
    if |ins| > 0 {
      assert InDims(ins)[0].name in x && InDims(ins)[1..] == InDims(ins[1..]);
      assert forall d :: 0 <= d < |ins| - 1 ==> ins[1..][d] == ins[d + 1] && InDims(ins[1..])[d] == InDims(ins)[d + 1];
      ZeroOutValue(ins[1..], x, k, j);
      assert Widths(ins[0].bases, k);
      ZeroDimValue(ins[0].bases, x[ins[0].name], j);
    }
  }

  lemma KeepInWidths(outs: seq<Dim>, names: set<Name>, ins: seq<InDim>)
    requires InWidths(ins, |outs|)
    ensures InWidths(KeepIns(outs, names, ins), |FilterDims(outs, names)|)
  {
    var r := KeepIns(outs, names, ins);
    forall d, i | 0 <= d < |r| && 0 <= i < |r[d].bases| ensures |r[d].bases[i]| == |FilterDims(outs, names)| {
      assert r[d].bases == KeepVecs(outs, names, ins[d].bases);
    }
  }

  // If the sublayout from p to names is zero, p does not influence an out-dimension in names.
  lemma ZeroSublayoutValue(l: Layout, p: set<Name>, names: set<Name>, x: Coord, i: nat)
    requires InWidths(l.ins, |l.outs|) && Distinct(l.outs) && SublayoutIsZero(l, p, names)
    requires Covers(InDims(FilterIns(l.ins, p)), x) && i < |l.outs| && l.outs[i].name in names
    requires InWidths(FilterIns(l.ins, p), |l.outs|)
    ensures OutValue(FilterIns(l.ins, p), x, i) == 0
  {
    var kept := KeepIns(l.outs, names, FilterIns(l.ins, p));
    var zeros := seq(|l.outs|, k => 0);
    KeepVecAt(l.outs, names, zeros, i);
    var j := Kept(l.outs, names, i);
    KeepInWidths(l.outs, names, FilterIns(l.ins, p));
    KeepOutValue(l.outs, names, FilterIns(l.ins, p), x, j, i);
    ZeroOutValue(kept, x, |FilterDims(l.outs, names)|, j);
  }

  // ---------- the identity check ----------

  function Bits1(dims: seq<Dim>, n: Name): nat
    requires n in Names(dims)
  {
    dims[Index(dims, n)].bits
  }

  // `flattenIns().flattenOuts()`
  function Flattened(s: Layout): (f: Layout)
    requires InWidths(s.ins, |s.outs|) && |s.ins| > 0 && |s.outs| > 0
  {
    var g := ReshapeIns(s, [Dim(s.ins[0].name, Total(InDims(s.ins)))]);
    FlatInWidths(s.ins, |s.outs|);
    FlattenedWidths(FlatBases(s.ins), s.ins[0].name, |s.outs|);
    ReshapeOuts(g, [Dim(s.outs[0].name, Total(s.outs))])
  }

  lemma {:induction false} FlatInWidths(ins: seq<InDim>, k: nat)
    requires InWidths(ins, k)
    ensures Widths(FlatBases(ins), k)
  {
    if |ins| > 0 {
      assert InWidths(ins[1..], k);
      FlatInWidths(ins[1..], k);
      assert Widths(ins[0].bases, k);
    }
  }

  lemma FlattenedWidths(flat: seq<seq<nat>>, n: Name, k: nat)
    requires Widths(flat, k)
    ensures Total([Dim(n, |flat|)]) == |flat|
    ensures InWidths(Regroup(flat, [Dim(n, |flat|)]), k)
    ensures |Regroup(flat, [Dim(n, |flat|)])| == 1 && Regroup(flat, [Dim(n, |flat|)])[0].bases == flat
  {
    var dims := [Dim(n, |flat|)];
    assert dims[1..] == [] && flat[..|flat|] == flat;
  }

  // `squareSublayoutIsIdentity`
  predicate SquareSublayoutIsIdentity(l: Layout, names: set<Name>)
    requires InWidths(l.ins, |l.outs|)
    requires names <= Names(InDims(l.ins)) && names <= Names(l.outs)
  {
    var s := Sublayout(l, names, names);
    names == {} ||
    ((forall n :: n in names ==> Bits1(InDims(l.ins), n) == Bits1(l.outs, n)) &&
     FlattenedIsIdentity(s))
  }

  predicate FlattenedIsIdentity(s: Layout)
    requires InWidths(s.ins, |s.outs|)
  {
    |s.ins| > 0 && |s.outs| > 0 &&
    forall b :: 0 <= b < |Flattened(s).ins[0].bases| ==> Flattened(s).ins[0].bases[b] == [Pow2(b)]
  }

  // ---------- isTrivialOver and quotient ----------

  /** The arguments for which the source does not stop with a fatal error: every name is an in-
      and an out-dimension, or some name is neither. */
  ghost predicate TrivialOverDefined(l: Layout, names: set<Name>) {
    (names <= Names(InDims(l.ins)) && names <= Names(l.outs))
    || (exists n :: n in names && n !in Names(InDims(l.ins)) && n !in Names(l.outs))
  }

  /** `isTrivialOver` */
  predicate IsTrivialOver(l: Layout, names: set<Name>)
    requires InWidths(l.ins, |l.outs|) && TrivialOverDefined(l, names)
  {
    (forall n :: n in names ==> n in Names(InDims(l.ins)) || n in Names(l.outs)) &&
    SquareSublayoutIsIdentity(l, names) &&
    SublayoutIsZero(l, Names(InDims(l.ins)) - names, names) &&
    SublayoutIsZero(l, names, Names(l.outs) - names)
  }

  // The sublayout on the remaining dimensions.
  function Remaining(l: Layout, names: set<Name>): (s: Layout)
    requires InWidths(l.ins, |l.outs|)
  {
    Sublayout(l, Names(InDims(l.ins)) - names, Names(l.outs) - names)
  }

  datatype MaybeLayout = NoLayout | SomeLayout(layout: Layout)

  /** `quotient` */
  function QuotientOf(l: Layout, names: set<Name>): MaybeLayout
    requires InWidths(l.ins, |l.outs|) && TrivialOverDefined(l, names)
  {
    if IsTrivialOver(l, names) then SomeLayout(Remaining(l, names)) else NoLayout
  }

  lemma PartitionNames(l: Layout, names: set<Name>)
    ensures Partition(l.ins, names, Names(InDims(l.ins)) - names)
  {
    forall d | 0 <= d < |l.ins| ensures l.ins[d].name in Names(InDims(l.ins)) {
      assert InDims(l.ins)[d].name == l.ins[d].name;
    }
  }

  lemma KeepVecInRange(outs: seq<Dim>, names: set<Name>, v: seq<nat>)
    requires IsVector(outs, v)
    ensures IsVector(FilterDims(outs, names), KeepVec(outs, names, v))
  {
    if |outs| > 0 {
      assert IsVector(outs[1..], v[1..]);
      KeepVecInRange(outs[1..], names, v[1..]);
    }
  }

  lemma {:induction false} FilterInsVectors(outs: seq<Dim>, ins: seq<InDim>, names: set<Name>)
    requires AllVectors(outs, ins)
    ensures AllVectors(outs, FilterIns(ins, names))
  {
    if |ins| > 0 {
      assert forall d :: 0 <= d < |ins| - 1 ==> ins[1..][d] == ins[d + 1];
      FilterInsVectors(outs, ins[1..], names);
      assert Vectors(outs, ins[0].bases);
    }
  }

  lemma SublayoutWellFormed(l: Layout, inNames: set<Name>, outNames: set<Name>)
    requires WellFormed(l)
    ensures InWidths(l.ins, |l.outs|) && WellFormed(Sublayout(l, inNames, outNames))
  {
    WellFormedWidths(l);
    var s, f := Sublayout(l, inNames, outNames), FilterIns(l.ins, inNames);
    FilterInsDims(l.ins, inNames);
    FilterDimsDistinct(InDims(l.ins), inNames);
    FilterDimsDistinct(l.outs, outNames);
    FilterInsVectors(l.outs, l.ins, inNames);
    forall d, i | 0 <= d < |s.ins| && 0 <= i < |s.ins[d].bases|
      ensures IsVector(s.outs, s.ins[d].bases[i])
    {
      assert Vectors(l.outs, f[d].bases);
      assert IsVector(l.outs, f[d].bases[i]);
      KeepVecInRange(l.outs, outNames, f[d].bases[i]);
    }
    assert forall d :: 0 <= d < |s.ins| ==> Vectors(s.outs, s.ins[d].bases);
  }

  // What a sublayout computes at a kept out-dimension.
  lemma SublayoutAt(l: Layout, inNames: set<Name>, outNames: set<Name>, x: Coord, i: nat)
    requires WellFormed(l) && InWidths(l.ins, |l.outs|) && WellFormed(Sublayout(l, inNames, outNames))
    requires i < |l.outs| && l.outs[i].name in outNames && InWidths(FilterIns(l.ins, inNames), |l.outs|)
    requires Covers(InDims(FilterIns(l.ins, inNames)), x)
    ensures l.outs[i].name in Apply(Sublayout(l, inNames, outNames), x)
    ensures Apply(Sublayout(l, inNames, outNames), x)[l.outs[i].name] == OutValue(FilterIns(l.ins, inNames), x, i)
  {
    var s := Sublayout(l, inNames, outNames);
    KeepVecAt(l.outs, outNames, seq(|l.outs|, k => 0), i);
    var j := Kept(l.outs, outNames, i);
    ApplyAt(s, x, j);
    KeepOutValue(l.outs, outNames, FilterIns(l.ins, inNames), x, j, i);
  }

  // An out-dimension of one block sees only that block's in-dimensions.
  lemma BlockValue(l: Layout, p: set<Name>, q: set<Name>, outNames: set<Name>, x: Coord, i: nat)
    requires WellFormed(l) && InWidths(l.ins, |l.outs|) && Partition(l.ins, p, q) && SublayoutIsZero(l, q, outNames)
    requires Covers(InDims(l.ins), x) && i < |l.outs| && l.outs[i].name in outNames
    ensures var block := Sublayout(l, p, outNames);
            && WellFormed(block) && Covers(InDims(block.ins), x)
            && l.outs[i].name in Apply(block, x)
            && Apply(l, x)[l.outs[i].name] == Apply(block, x)[l.outs[i].name]
  {
    hide OutValue, XorInt, Apply, Partition, SublayoutIsZero;
    SplitOutValue(l.ins, p, q, x, |l.outs|, i);
    ApplyAt(l, x, i);
    SublayoutWellFormed(l, p, outNames);
    ZeroSublayoutValue(l, q, outNames, x, i);
    SublayoutAt(l, p, outNames, x, i);
    XorIntZero(OutValue(FilterIns(l.ins, p), x, i));
  }

  lemma PartitionSwap(ins: seq<InDim>, p: set<Name>, q: set<Name>)
    requires Partition(ins, p, q)
    ensures Partition(ins, q, p)
  {
  }

  /** A trivial layout is the direct sum of its two diagonal blocks. */
  lemma TrivialSplits(l: Layout, names: set<Name>, x: Coord, i: nat)
    requires WellFormed(l) && InWidths(l.ins, |l.outs|) && TrivialOverDefined(l, names) && IsTrivialOver(l, names)
    requires Covers(InDims(l.ins), x) && i < |l.outs|
    ensures var block := if l.outs[i].name in names then Sublayout(l, names, names) else Remaining(l, names);
            && WellFormed(block) && Covers(InDims(block.ins), x)
            && l.outs[i].name in Apply(block, x)
            && Apply(l, x)[l.outs[i].name] == Apply(block, x)[l.outs[i].name]
  {
    hide Apply, Sublayout, Partition;
    var rest, o := Names(InDims(l.ins)) - names, l.outs[i].name;
    PartitionNames(l, names);
    PartitionSwap(l.ins, names, rest);
    if o in names {
      BlockValue(l, names, rest, names, x, i);
    } else {
      assert o in Names(l.outs);
      BlockValue(l, rest, names, Names(l.outs) - names, x, i);
    }
  }

  // ---------- the identity block ----------

  lemma {:induction false} ToBitsPow2(i: nat, n: nat)
    requires i < n
    ensures ToBits(Pow2(i), n) == Unit(n, i)
  {
    if i == 0 {
      ToBitsZero(n - 1);
    } else {
      ToBitsPow2(i - 1, n - 1);
    }
  }

  // A layout whose flattened bases are 1, 2, 4, ... copies its flattened input.
  lemma FlattenedIdentityCopies(s: Layout, x: Coord)
    requires WellFormed(s) && InWidths(s.ins, |s.outs|) && FlattenedIsIdentity(s) && Covers(InDims(s.ins), x)
    ensures Covers(s.outs, Apply(s, x)) && Total(InDims(s.ins)) <= Total(s.outs)
    ensures Flat(s.outs, Apply(s, x)) == Flat(InDims(s.ins), x) + Zero(Total(s.outs) - Total(InDims(s.ins)))
  {
    hide Dot, Flat, Apply, MatrixOf, Total;
    var f, n, k := Flattened(s), Total(InDims(s.ins)), Total(s.outs);
    var m := MatrixOf(s);
    FlattenedMatrix(s);
    ApplyIsMatVec(s, x);
    if n > 0 {
      assert |ToBits(0, k)| == k;
      FlattenedColumn(s, n - 1);
    }
    var b := Flat(InDims(s.ins), x);
    forall r | 0 <= r < k
      ensures Dot(m[r], b) == (r < n && b[r])
    {
      forall c | 0 <= c < n ensures m[r][c] == (r == c) {
        FlattenedColumn(s, c);
      }
      if r < n && b[r] {
        DotSingle(m[r], b, r);
      } else {
        DotDisjoint(m[r], b);
      }
    }
  }

  lemma FlattenedMatrix(s: Layout)
    requires WellFormed(s) && InWidths(s.ins, |s.outs|) && |s.ins| > 0 && |s.outs| > 0
    ensures WellFormed(Flattened(s)) && MatrixOf(Flattened(s)) == MatrixOf(s)
    ensures |Flattened(s).ins| == 1 && |Flattened(s).ins[0].bases| == Total(InDims(s.ins))
    ensures FlatBases(Flattened(s).ins) == Flattened(s).ins[0].bases && Flattened(s).outs == [Dim(s.outs[0].name, Total(s.outs))]
  {
    var newIns, newOuts := [Dim(s.ins[0].name, Total(InDims(s.ins)))], [Dim(s.outs[0].name, Total(s.outs))];
    assert newIns[1..] == [] && newOuts[1..] == [];
    ReshapeInsKeeps(s, newIns);
    ReshapeOutsKeeps(ReshapeIns(s, newIns), newOuts);
    assert |InDims(Flattened(s).ins)| == 1;
    assert Flattened(s).ins[1..] == [];
  }

  // Column c of a flattened identity has a single 1, in row c.
  lemma FlattenedColumn(s: Layout, c: nat)
    requires WellFormed(s) && InWidths(s.ins, |s.outs|) && FlattenedIsIdentity(s) && c < Total(InDims(s.ins))
    ensures c < Total(s.outs)
    ensures forall r :: 0 <= r < Total(s.outs) ==> MatrixOf(s)[r][c] == (r == c)
  {
    var f, k := Flattened(s), Total(s.outs);
    FlattenedMatrix(s);
    assert f.ins[0].bases[c] == [Pow2(c)];
    assert Vectors(f.outs, f.ins[0].bases);
    assert IsVector(f.outs, f.ins[0].bases[c]);
    if c >= k {
      if c > k { Pow2Increases(k, c); }
      assert false;
    }
    ToBitsPow2(c, k);
    assert f.outs[1..] == [];
    assert FlatVec(f.outs, [Pow2(c)]) == ToBits(Pow2(c), k);
    forall r | 0 <= r < k ensures MatrixOf(f)[r][c] == (r == c) {
      MatrixEntry(f, r, c);
    }
  }

  lemma {:induction false} FilterDimsAppend(a: seq<Dim>, b: seq<Dim>, names: set<Name>)
    ensures FilterDims(a + b, names) == FilterDims(a, names) + FilterDims(b, names)
  {
    if |a| == 0 {
      assert a + b == b;
    } else {
      FilterDimsHead(a, names);
      FilterDimsHead(a + b, names);
      hide FilterDims;
      AppendTail(a, b);
      FilterDimsAppend(a[1..], b, names);
      Associate(if a[0].name in names then [a[0]] else [], FilterDims(a[1..], names), FilterDims(b, names));
    }
  }

  lemma {:induction false} FilterNone(dims: seq<Dim>, names: set<Name>)
    requires forall i :: 0 <= i < |dims| ==> dims[i].name !in names
    ensures FilterDims(dims, names) == []
  {
    if |dims| > 0 {
      assert forall i :: 0 <= i < |dims| - 1 ==> dims[1..][i] == dims[i + 1];
      FilterNone(dims[1..], names);
    }
  }

  lemma FilterOne(dims: seq<Dim>, n: Name)
    requires Distinct(dims) && n in Names(dims)
    ensures FilterDims(dims, {n}) == [dims[Index(dims, n)]]
  {
    hide FilterDims;
    var i := Index(dims, n);
    assert dims == dims[..i] + ([dims[i]] + dims[i + 1..]);
    FilterDimsAppend(dims[..i], [dims[i]] + dims[i + 1..], {n});
    FilterDimsAppend([dims[i]], dims[i + 1..], {n});
    FilterNone(dims[..i], {n});
    FilterNone(dims[i + 1..], {n});
    FilterSingle(dims[i]);
  }

  lemma FilterSingle(d: Dim)
    ensures FilterDims([d], {d.name}) == [d]
  {
    assert [d][1..] == [];
  }

  ghost predicate Bounded(dims: seq<Dim>, x: Coord) {
    forall i :: 0 <= i < |dims| ==> dims[i].name in x && x[dims[i].name] < Pow2(dims[i].bits)
  }

  /** Trivial over one dimension: that dimension is copied, and the quotient computes the others. */
  lemma TrivialOverOne(l: Layout, n: Name, x: Coord)
    requires WellFormed(l) && InWidths(l.ins, |l.outs|) && n in Names(InDims(l.ins)) && n in Names(l.outs)
    requires IsTrivialOver(l, {n}) && Bounded(InDims(l.ins), x)
    ensures n in x && Apply(l, x)[n] == x[n]
    ensures WellFormed(Remaining(l, {n})) && Covers(InDims(Remaining(l, {n}).ins), x)
    ensures forall o :: o in Names(l.outs) && o != n ==> o in Apply(Remaining(l, {n}), x) && Apply(l, x)[o] == Apply(Remaining(l, {n}), x)[o]
  {
    var s := Sublayout(l, {n}, {n});
    TrivialSplits(l, {n}, x, Index(l.outs, n));
    SublayoutWellFormed(l, {n}, {n});
    WellFormedWidths(s);
    FlattenedIdentityCopies(s, x);
    FilterInsDims(l.ins, {n});
    FilterOne(l.outs, n);
    FilterOne(InDims(l.ins), n);
    OneDimFlat(s.outs, Apply(s, x), n);
    OneDimFlat(InDims(s.ins), x, n);
    ApplyInRange(s, x);
    assert s.outs[0].name in Apply(s, x);
    assert InDims(l.ins)[Index(InDims(l.ins), n)].name in x;
    var k := s.outs[0].bits;
    assert ToBits(x[n], k) + Zero(0) == ToBits(x[n], k);
    BitsDecide(Apply(s, x)[n], x[n], k);
    SublayoutWellFormed(l, Names(InDims(l.ins)) - {n}, Names(l.outs) - {n});
    FilterCovers(l.ins, Names(InDims(l.ins)) - {n}, x);
    forall o | o in Names(l.outs) && o != n
      ensures o in Apply(Remaining(l, {n}), x) && Apply(l, x)[o] == Apply(Remaining(l, {n}), x)[o]
    {
      TrivialSplits(l, {n}, x, Index(l.outs, o));
    }
  }

  lemma OneDimFlat(dims: seq<Dim>, x: Coord, n: Name)
    requires |dims| == 1 && dims[0].name == n && n in x && Covers(dims, x)
    ensures Flat(dims, x) == ToBits(x[n], dims[0].bits) && Total(dims) == dims[0].bits
  {
    assert dims[1..] == [];
  }

  // The remaining dimensions are all but the dropped one.
  lemma RemainingNames(l: Layout, n: Name)
    requires InWidths(l.ins, |l.outs|)
    ensures Names(Remaining(l, {n}).outs) == Names(l.outs) - {n}
    ensures Names(InDims(Remaining(l, {n}).ins)) == Names(InDims(l.ins)) - {n}
  {
    FilterInsDims(l.ins, Names(InDims(l.ins)) - {n});
    FilterNames(l.outs, Names(l.outs) - {n});
    FilterNames(InDims(l.ins), Names(InDims(l.ins)) - {n});
  }

  lemma FilterNames(dims: seq<Dim>, names: set<Name>)
    ensures Names(FilterDims(dims, names)) == Names(dims) * names
  {
    var f := FilterDims(dims, names);
    forall n | n in Names(f) ensures n in Names(dims) * names {
      var i :| 0 <= i < |f| && f[i].name == n;
      assert f[i] in dims;
    }
    forall n | n in Names(dims) * names ensures n in Names(f) {
      var i :| 0 <= i < |dims| && dims[i].name == n;
      KeepVecAt(dims, names, seq(|dims|, k => 0), i);
    }
  }
}
