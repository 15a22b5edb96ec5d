/** LinearLayout::compose (lib/Tools/LinearLayout.cpp:813-841). */
module Composition {
  import opened Words
  import opened Layout
  import opened LayoutMatrix
  import opened LayoutRank
  import opened Reshape
  import opened Product

  // ---------- apply is linear ----------

  lemma {:induction false} DimValueXor(bases: seq<seq<nat>>, a: nat, b: nat, j: nat)
    requires Has(bases, j)
    ensures DimValue(bases, XorInt(a, b), j) == XorInt(DimValue(bases, a, j), DimValue(bases, b, j))
  {
    hide XorInt;
    if |bases| == 0 {
      XorIntZero(0);
    } else {
      var t := bases[1..];
      HasTail(bases, j);
      XorIntParts(a, b);
      DimValueXor(t, a / 2, b / 2, j);
      var u, v := if a % 2 == 1 then bases[0][j] else 0, if b % 2 == 1 then bases[0][j] else 0;
      XorExchange(u, DimValue(t, a / 2, j), v, DimValue(t, b / 2, j));
      XorIntZero(bases[0][j]);
      XorSelf(bases[0][j]);
      XorIntZero(0);
    }
  }

  lemma {:induction false} XorSelf(a: nat)
    ensures XorInt(a, a) == 0
  {
    if a != 0 {
      XorSelf(a / 2);
      XorIntParts(a, a);
    }
  }

  // z is the exclusive or of x and y at every dimension.
  ghost predicate XorAt(dims: seq<Dim>, x: Coord, y: Coord, z: Coord)
    requires Covers(dims, x) && Covers(dims, y) && Covers(dims, z)
  {
    forall i :: 0 <= i < |dims| ==> XorAtDim(dims[i].name, x, y, z)
  }

  ghost predicate XorAtDim(n: Name, x: Coord, y: Coord, z: Coord) {
    n in x && n in y && n in z && z[n] == XorInt(x[n], y[n])
  }

  lemma {:induction false} OutValueXor(ins: seq<InDim>, x: Coord, y: Coord, z: Coord, j: nat)
    requires Covers(InDims(ins), x) && Covers(InDims(ins), y) && Covers(InDims(ins), z) && AllHave(ins, j)
    requires XorAt(InDims(ins), x, y, z)
    ensures OutValue(ins, z, j) == XorInt(OutValue(ins, x, j), OutValue(ins, y, j))
  {
    hide XorInt, DimValue;
    if |ins| == 0 {
      XorIntZero(0);
    } else {
      var n, t := ins[0].name, ins[1..];
      assert InDims(ins)[0].name == n && XorAtDim(n, x, y, z);
      TailCoords(ins, x, j);
      TailCoords(ins, y, j);
      TailCoords(ins, z, j);
      assert forall k :: 0 <= k < |t| ==> InDims(t)[k] == InDims(ins)[k + 1];
      OutValueXor(t, x, y, z, j);
      DimValueXor(ins[0].bases, x[n], y[n], j);
      XorExchange(DimValue(ins[0].bases, x[n], j), OutValue(t, x, j), DimValue(ins[0].bases, y[n], j), OutValue(t, y, j));
    }
  }

  lemma TailCoords(ins: seq<InDim>, x: Coord, j: nat)
    requires |ins| > 0 && Covers(InDims(ins), x) && AllHave(ins, j)
    ensures Covers(InDims(ins[1..]), x) && AllHave(ins[1..], j) && ins[0].name in x
  {
    assert forall k :: 0 <= k < |ins| - 1 ==> InDims(ins[1..])[k] == InDims(ins)[k + 1] && ins[1..][k] == ins[k + 1];
    assert InDims(ins)[0].name in x;
    forall k | 0 <= k < |InDims(ins[1..])| ensures InDims(ins[1..])[k].name in x {
      assert InDims(ins)[k + 1].name in x;
    }
  }

  // ---------- basis vectors as coordinates ----------

  function CoordOf(dims: seq<Dim>, v: seq<nat>): (x: Coord)
    requires |v| == |dims|
    ensures x.Keys == Names(dims)
  {
    map n | n in Names(dims) :: v[Index(dims, n)]
  }

  lemma CoordAt(dims: seq<Dim>, v: seq<nat>, i: nat)
    requires |v| == |dims| && Distinct(dims) && i < |dims|
    ensures dims[i].name in Names(dims) && CoordOf(dims, v)[dims[i].name] == v[i]
  {
    assert dims[i].name in Names(dims);
    assert Index(dims, dims[i].name) == i;
  }

  // The output j of `outer` for a vector of `mid`'s values.
  function Through(outer: Layout, mid: seq<Dim>, v: seq<nat>, j: nat): nat
    requires WellFormed(outer) && |v| == |mid| && Names(mid) == Names(InDims(outer.ins)) && j < |outer.outs|
  {
    NamesCovered(outer, mid);
    WellFormedHave(outer, j);
    OutValue(outer.ins, CoordOf(mid, v), j)
  }

  lemma NamesCovered(outer: Layout, mid: seq<Dim>)
    requires Names(mid) == Names(InDims(outer.ins))
    ensures forall x: Coord :: x.Keys == Names(mid) ==> Covers(InDims(outer.ins), x)
  {
    forall x: Coord | x.Keys == Names(mid) ensures Covers(InDims(outer.ins), x) {
      forall i | 0 <= i < |InDims(outer.ins)| ensures InDims(outer.ins)[i].name in x {
        assert InDims(outer.ins)[i].name in Names(InDims(outer.ins));
      }
    }
  }

  lemma ThroughXor(outer: Layout, mid: seq<Dim>, a: seq<nat>, b: seq<nat>, j: nat)
    requires WellFormed(outer) && |a| == |b| == |mid| && Distinct(mid) && Names(mid) == Names(InDims(outer.ins)) && j < |outer.outs|
    ensures Through(outer, mid, XorVec(a, b), j) == XorInt(Through(outer, mid, a, j), Through(outer, mid, b, j))
  {
    hide OutValue;
    NamesCovered(outer, mid);
    WellFormedHave(outer, j);
    var x, y, z := CoordOf(mid, a), CoordOf(mid, b), CoordOf(mid, XorVec(a, b));
    forall i | 0 <= i < |InDims(outer.ins)| ensures XorAtDim(InDims(outer.ins)[i].name, x, y, z) {
      var n := InDims(outer.ins)[i].name;
      assert n in Names(InDims(outer.ins));
      CoordAt(mid, a, Index(mid, n));
    }
    OutValueXor(outer.ins, x, y, z, j);
  }

  lemma ThroughZero(outer: Layout, mid: seq<Dim>, j: nat)
    requires WellFormed(outer) && Distinct(mid) && Names(mid) == Names(InDims(outer.ins)) && j < |outer.outs|
    ensures Through(outer, mid, ZeroVec(|mid|), j) == 0
  {
    hide XorInt, OutValue;
    var z := ZeroVec(|mid|);
    XorIntZero(0);
    assert XorVec(z, z) == z;
    ThroughXor(outer, mid, z, z, j);
    XorSelf(Through(outer, mid, z, j));
  }

  // ---------- compose ----------

  function NewBases(outer: Layout, mid: seq<Dim>, bases: seq<seq<nat>>): (r: seq<seq<nat>>)
    requires WellFormed(outer) && Names(mid) == Names(InDims(outer.ins)) && Widths(bases, |mid|)
    ensures |r| == |bases| && Widths(r, |outer.outs|)
    ensures forall i, j :: 0 <= i < |r| && 0 <= j < |outer.outs| ==> r[i][j] == Through(outer, mid, bases[i], j)
  {
    seq(|bases|, i requires 0 <= i < |bases| => seq(|outer.outs|, j requires 0 <= j < |outer.outs| => Through(outer, mid, bases[i], j)))
  }

  // What the source asserts: the same dimensions in any order, none larger than in `outer`.
  ghost predicate Composable(l: Layout, outer: Layout) {
    && WellFormed(l) && WellFormed(outer) && Names(l.outs) == Names(InDims(outer.ins))
    && forall i :: 0 <= i < |l.outs| ==> l.outs[i].name in Names(InDims(outer.ins)) && l.outs[i].bits <= InDims(outer.ins)[Index(InDims(outer.ins), l.outs[i].name)].bits
  }

  /** `compose` */
  function Compose(l: Layout, outer: Layout): (c: Layout)
    requires WellFormed(outer) && Names(l.outs) == Names(InDims(outer.ins)) && InWidths(l.ins, |l.outs|)
    ensures c.outs == outer.outs && InDims(c.ins) == InDims(l.ins)
  {
    Layout(seq(|l.ins|, d requires 0 <= d < |l.ins| => InDim(l.ins[d].name, NewBases(outer, l.outs, l.ins[d].bases))), outer.outs)
  }

  // One value per out-dimension of l, along one in-dimension.
  ghost function DimVec(bases: seq<seq<nat>>, v: nat, k: nat): (r: seq<nat>)
    requires Widths(bases, k)
    ensures |r| == k && forall j :: 0 <= j < k ==> r[j] == DimValue(bases, v, j)
  {
    seq(k, j requires 0 <= j < k => DimValue(bases, v, j))
  }

  ghost function OutVec(ins: seq<InDim>, x: Coord, k: nat): (r: seq<nat>)
    requires InWidths(ins, k) && Covers(InDims(ins), x)
    ensures |r| == k && forall j :: 0 <= j < k ==> r[j] == OutValue(ins, x, j)
  {
    seq(k, j requires 0 <= j < k => OutValue(ins, x, j))
  }

  lemma {:induction false} DimThrough(outer: Layout, mid: seq<Dim>, bases: seq<seq<nat>>, v: nat, j: nat)
    requires WellFormed(outer) && Distinct(mid) && Names(mid) == Names(InDims(outer.ins)) && Widths(bases, |mid|) && j < |outer.outs|
    ensures DimValue(NewBases(outer, mid, bases), v, j) == Through(outer, mid, DimVec(bases, v, |mid|), j)
  {
    hide XorInt, Through;
    var made := NewBases(outer, mid, bases);
    if |bases| == 0 {
      assert DimVec(bases, v, |mid|) == ZeroVec(|mid|);
      ThroughZero(outer, mid, j);
    } else {
      var t := bases[1..];
      assert made[1..] == NewBases(outer, mid, t);
      DimThrough(outer, mid, t, v / 2, j);
      var head := if v % 2 == 1 then bases[0] else ZeroVec(|mid|);
      ThroughZero(outer, mid, j);
      ThroughXor(outer, mid, head, DimVec(t, v / 2, |mid|), j);
      assert DimVec(bases, v, |mid|) == XorVec(head, DimVec(t, v / 2, |mid|));
    }
  }

  ghost function ComposedIns(outer: Layout, mid: seq<Dim>, ins: seq<InDim>): (r: seq<InDim>)
    requires WellFormed(outer) && Names(mid) == Names(InDims(outer.ins)) && InWidths(ins, |mid|)
    ensures |r| == |ins| && InDims(r) == InDims(ins) && InWidths(r, |outer.outs|)
    ensures forall d :: 0 <= d < |ins| ==> r[d] == InDim(ins[d].name, NewBases(outer, mid, ins[d].bases))
  {
    seq(|ins|, d requires 0 <= d < |ins| => InDim(ins[d].name, NewBases(outer, mid, ins[d].bases)))
  }

  lemma {:induction false} OutThrough(outer: Layout, mid: seq<Dim>, ins: seq<InDim>, x: Coord, j: nat)
    requires WellFormed(outer) && Distinct(mid) && Names(mid) == Names(InDims(outer.ins)) && InWidths(ins, |mid|)
    requires Covers(InDims(ins), x) && j < |outer.outs|
    ensures OutValue(ComposedIns(outer, mid, ins), x, j) == Through(outer, mid, OutVec(ins, x, |mid|), j)
  {
    hide XorInt, Through, DimValue;
    var made := ComposedIns(outer, mid, ins);
    if |ins| == 0 {
      assert OutVec(ins, x, |mid|) == ZeroVec(|mid|);
      ThroughZero(outer, mid, j);
    } else {
      var t, n := ins[1..], ins[0].name;
      assert InDims(ins)[0].name in x;
      assert forall k :: 0 <= k < |t| ==> InDims(t)[k] == InDims(ins)[k + 1] && t[k] == ins[k + 1];
      forall k | 0 <= k < |InDims(t)| ensures InDims(t)[k].name in x {
        assert InDims(ins)[k + 1].name in x;
      }
      assert made[1..] == ComposedIns(outer, mid, t);
      OutThrough(outer, mid, t, x, j);
      DimThrough(outer, mid, ins[0].bases, x[n], j);
      var a, b := DimVec(ins[0].bases, x[n], |mid|), OutVec(t, x, |mid|);
      ThroughXor(outer, mid, a, b, j);
      assert OutVec(ins, x, |mid|) == XorVec(a, b);
    }
  }

  lemma ComposeWellFormed(l: Layout, outer: Layout)
    requires Composable(l, outer)
    ensures InWidths(l.ins, |l.outs|) && WellFormed(Compose(l, outer))
  {
    hide OutValue;
    WellFormedWidths(l);
    var c := Compose(l, outer);
    NamesCovered(outer, l.outs);
    forall d, i | 0 <= d < |c.ins| && 0 <= i < |c.ins[d].bases| ensures IsVector(c.outs, c.ins[d].bases[i]) {
      forall j | 0 <= j < |outer.outs| ensures c.ins[d].bases[i][j] < Pow2(outer.outs[j].bits) {
        OutValueBound(outer.outs, outer.ins, CoordOf(l.outs, l.ins[d].bases[i]), j);
      }
    }
    assert forall d :: 0 <= d < |c.ins| ==> Vectors(c.outs, c.ins[d].bases);
  }

  lemma MidCoord(l: Layout, x: Coord)
    requires WellFormed(l) && InWidths(l.ins, |l.outs|) && Covers(InDims(l.ins), x)
    ensures CoordOf(l.outs, OutVec(l.ins, x, |l.outs|)) == Apply(l, x)
  {
    hide OutValue;
    var v := OutVec(l.ins, x, |l.outs|);
    forall n | n in Names(l.outs) ensures CoordOf(l.outs, v)[n] == Apply(l, x)[n] {
      ApplyAt(l, x, Index(l.outs, n));
    }
  }

  /** The composition applies one layout after the other. */
  lemma ComposeApplies(l: Layout, outer: Layout, x: Coord)
    requires Composable(l, outer) && Covers(InDims(l.ins), x)
    ensures InWidths(l.ins, |l.outs|) && WellFormed(Compose(l, outer)) && Covers(InDims(outer.ins), Apply(l, x))
    ensures Apply(Compose(l, outer), x) == Apply(outer, Apply(l, x))
  {
    hide OutValue, NewBases, Apply;
    ComposeWellFormed(l, outer);
    NamesCovered(outer, l.outs);
    MidCoord(l, x);
    var c, y := Compose(l, outer), Apply(l, x);
    assert c.ins == ComposedIns(outer, l.outs, l.ins);
    forall n | n in Names(outer.outs) ensures Apply(c, x)[n] == Apply(outer, y)[n] {
      var j := Index(outer.outs, n);
      OutThrough(outer, l.outs, l.ins, x, j);
      ApplyAt(c, x, j);
      ApplyAt(outer, y, j);
    }
  }

  // ---------- when the composition is surjective ----------

  // The out-dimensions of l are as large as the in-dimensions of outer.
  ghost predicate SizesMatch(l: Layout, outer: Layout)
    requires Composable(l, outer)
  {
    forall i :: 0 <= i < |l.outs| ==> l.outs[i].bits == InDims(outer.ins)[Index(InDims(outer.ins), l.outs[i].name)].bits
  }

  ghost predicate OneToOne(outer: Layout)
    requires WellFormed(outer)
  {
    forall x: Coord, y: Coord :: InRange(InDims(outer.ins), x) && InRange(InDims(outer.ins), y) ==> (SameImage(outer, x, y) ==> x == y)
  }

  ghost predicate SameImage(outer: Layout, x: Coord, y: Coord)
    requires WellFormed(outer) && Covers(InDims(outer.ins), x) && Covers(InDims(outer.ins), y)
  {
    Apply(outer, x) == Apply(outer, y)
  }

  lemma IndexIs(dims: seq<Dim>, i: nat)
    requires Distinct(dims) && i < |dims|
    ensures dims[i].name in Names(dims) && Index(dims, dims[i].name) == i
  {
  }

  // Coordinates of l's out-dimensions are coordinates of outer's in-dimensions.
  lemma MidFits(l: Layout, outer: Layout, y: Coord)
    requires Composable(l, outer) && InRange(l.outs, y)
    ensures InRange(InDims(outer.ins), y)
  {
    hide Pow2, Names, AllVectors;
    var dims := InDims(outer.ins);
    forall i | 0 <= i < |dims| ensures dims[i].name in y && y[dims[i].name] < Pow2(dims[i].bits) {
      var n := dims[i].name;
      IndexIs(dims, i);
      var k := Index(l.outs, n);
      if l.outs[k].bits < dims[i].bits {
        Pow2Increases(l.outs[k].bits, dims[i].bits);
      }
    }
  }

  lemma MidFitsBack(l: Layout, outer: Layout, y: Coord)
    requires Composable(l, outer) && SizesMatch(l, outer) && InRange(InDims(outer.ins), y)
    ensures InRange(l.outs, y)
  {
    var dims := InDims(outer.ins);
    forall i | 0 <= i < |l.outs| ensures l.outs[i].name in y && y[l.outs[i].name] < Pow2(l.outs[i].bits) {
      var k := Index(dims, l.outs[i].name);
      assert dims[k].name in y;
    }
  }

  // An element reached by the composition comes through l.
  lemma ReachedThrough(l: Layout, outer: Layout, z: Coord) returns (x: Coord)
    requires Composable(l, outer) && InWidths(l.ins, |l.outs|) && WellFormed(Compose(l, outer)) && Reaches(Compose(l, outer), z)
    ensures InRange(InDims(l.ins), x) && InRange(l.outs, Apply(l, x)) && InRange(InDims(outer.ins), Apply(l, x))
    ensures Apply(outer, Apply(l, x)) == z
  {
    x :| InRange(InDims(Compose(l, outer).ins), x) && Apply(Compose(l, outer), x) == z;
    ComposeApplies(l, outer, x);
    ApplyInRange(l, x);
    MidFits(l, outer, Apply(l, x));
  }

  /** Requiring surjectivity where both layouts have it and the sizes match never fails; and only a
      surjective outer layout makes a composition surjective. */
  lemma ComposeSurjective(l: Layout, outer: Layout)
    requires Composable(l, outer)
    ensures InWidths(l.ins, |l.outs|) && WellFormed(Compose(l, outer))
    ensures Surjective(l) && Surjective(outer) && SizesMatch(l, outer) ==> Surjective(Compose(l, outer))
    ensures Surjective(Compose(l, outer)) ==> Surjective(outer)
  {
    hide Apply, Compose;
    ComposeWellFormed(l, outer);
    var c := Compose(l, outer);
    if Surjective(l) && Surjective(outer) && SizesMatch(l, outer) {
      forall z: Coord | InRange(c.outs, z) ensures Reaches(c, z) {
        assert Reaches(outer, z);
        var y: Coord :| InRange(InDims(outer.ins), y) && Apply(outer, y) == z;
        MidFitsBack(l, outer, y);
        assert Reaches(l, y);
        var x: Coord :| InRange(InDims(l.ins), x) && Apply(l, x) == y;
        ComposeApplies(l, outer, x);
      }
    }
    if Surjective(c) {
      forall z: Coord | InRange(outer.outs, z) ensures Reaches(outer, z) {
        assert Reaches(c, z);
        var x := ReachedThrough(l, outer, z);
      }
    }
  }

  /** The documented equivalence holds whenever `outer` is one-to-one. */
  lemma ComposeSurjectiveIff(l: Layout, outer: Layout)
    requires Composable(l, outer) && OneToOne(outer)
    ensures InWidths(l.ins, |l.outs|) && WellFormed(Compose(l, outer))
    ensures Surjective(Compose(l, outer)) <==> Surjective(l) && Surjective(outer) && SizesMatch(l, outer)
  {
    hide Apply, Compose;
    ComposeSurjective(l, outer);
    var c := Compose(l, outer);
    if Surjective(c) {
      forall y: Coord | InRange(InDims(outer.ins), y) ensures Reaches(l, y) && InRange(l.outs, y) {
        OnlyThrough(l, outer, y);
      }
      forall y: Coord | InRange(l.outs, y) ensures Reaches(l, y) {
        MidFits(l, outer, y);
      }
      forall i | 0 <= i < |l.outs| ensures l.outs[i].bits == InDims(outer.ins)[Index(InDims(outer.ins), l.outs[i].name)].bits {
        LargestFits(l, outer, i);
      }
    }
  }

  lemma OnlyThrough(l: Layout, outer: Layout, y: Coord)
    requires Composable(l, outer) && OneToOne(outer) && InRange(InDims(outer.ins), y)
    requires InWidths(l.ins, |l.outs|) && WellFormed(Compose(l, outer)) && Surjective(Compose(l, outer))
    ensures Reaches(l, y) && InRange(l.outs, y)
  {
    hide Apply, Compose;
    ApplyInRange(outer, y);
    assert Reaches(Compose(l, outer), Apply(outer, y));
    var x := ReachedThrough(l, outer, Apply(outer, y));
    assert SameImage(outer, Apply(l, x), y);
  }

  // If every in-coordinate of outer is an out-coordinate of l, no dimension is smaller.
  lemma LargestFits(l: Layout, outer: Layout, i: nat)
    requires Composable(l, outer) && i < |l.outs|
    requires forall y: Coord :: InRange(InDims(outer.ins), y) ==> InRange(l.outs, y)
    ensures l.outs[i].bits == InDims(outer.ins)[Index(InDims(outer.ins), l.outs[i].name)].bits
  {
    var dims, n := InDims(outer.ins), l.outs[i].name;
    var k := Index(dims, n);
    if l.outs[i].bits < dims[k].bits {
      var y: Coord := map m | m in Names(dims) :: if m == n then Pow2(l.outs[i].bits) else 0;
      Pow2Increases(l.outs[i].bits, dims[k].bits);
      forall q | 0 <= q < |dims| ensures dims[q].name in y && y[dims[q].name] < Pow2(dims[q].bits) {
        IndexIs(dims, q);
      }
      NotBelowItself(l, outer, y, i);
    }
  }

  lemma NotBelowItself(l: Layout, outer: Layout, y: Coord, i: nat)
    requires i < |l.outs| && l.outs[i].name in y && y[l.outs[i].name] == Pow2(l.outs[i].bits)
    ensures !InRange(l.outs, y)
  {
  }
}
