/** Linear layouts: named dimensions, basis vectors and `apply`
(include/triton/Tools/LinearLayout.h, lib/Tools/LinearLayout.cpp).

A layout maps coordinates of its in-dimensions to coordinates of its out-dimensions by
xor-ing basis vectors.  Dimension sizes are powers of two and are kept as their log2. */
module Layout {
  import opened F2Matrix
  import opened Words

  type Name = string

  datatype Dim = Dim(name: Name, bits: nat)

  // bases[i] holds one value per out-dimension: the image of 2^i along this dimension.
  datatype InDim = InDim(name: Name, bases: seq<seq<nat>>)

  datatype Layout = Layout(ins: seq<InDim>, outs: seq<Dim>)

  type Coord = map<Name, nat>

  // ---------- dimensions and coordinates ----------

  ghost predicate Distinct(dims: seq<Dim>) {
    forall i, j :: 0 <= i < j < |dims| ==> dims[i].name != dims[j].name
  }

  function Names(dims: seq<Dim>): set<Name> {
    set i | 0 <= i < |dims| :: dims[i].name
  }

  function Total(dims: seq<Dim>): nat {
    if |dims| == 0 then 0 else dims[0].bits + Total(dims[1..])
  }

  // `x` has a value for exactly the named dimensions, each below the dimension's size.
  ghost predicate InRange(dims: seq<Dim>, x: Coord) {
    && x.Keys == Names(dims)
    && forall i :: 0 <= i < |dims| ==> dims[i].name in x && x[dims[i].name] < Pow2(dims[i].bits)
  }

  ghost predicate Covers(dims: seq<Dim>, x: Coord) {
    forall i :: 0 <= i < |dims| ==> dims[i].name in x
  }

  // The coordinate as one bit string: dimensions in order, low bits first.
  function Flat(dims: seq<Dim>, x: Coord): (b: Bits)
    requires Covers(dims, x)
    ensures |b| == Total(dims)
  {
    if |dims| == 0 then []
    else
      assert forall i :: 0 <= i < |dims| - 1 ==> dims[1..][i] == dims[i + 1];
      ToBits(x[dims[0].name], dims[0].bits) + Flat(dims[1..], x)
  }

  // The same for a basis vector, which has one value per dimension.
  function FlatVec(dims: seq<Dim>, v: seq<nat>): (b: Bits)
    requires |v| == |dims|
    ensures |b| == Total(dims)
  {
    if |dims| == 0 then [] else ToBits(v[0], dims[0].bits) + FlatVec(dims[1..], v[1..])
  }

  lemma {:induction false} FlatDecides(dims: seq<Dim>, x: Coord, y: Coord)
    requires Covers(dims, x) && Covers(dims, y)
    requires forall i :: 0 <= i < |dims| ==> x[dims[i].name] < Pow2(dims[i].bits) && y[dims[i].name] < Pow2(dims[i].bits)
    requires Flat(dims, x) == Flat(dims, y)
    ensures forall i :: 0 <= i < |dims| ==> x[dims[i].name] == y[dims[i].name]
  {
    if |dims| > 0 {
      var n, rest := dims[0].name, dims[1..];
      assert forall i :: 0 <= i < |dims| - 1 ==> rest[i] == dims[i + 1];
      var p, q := ToBits(x[n], dims[0].bits), ToBits(y[n], dims[0].bits);
      assert p == Flat(dims, x)[..|p|] && q == Flat(dims, y)[..|p|];
      assert Flat(rest, x) == Flat(dims, x)[|p|..] && Flat(rest, y) == Flat(dims, y)[|p|..];
      BitsDecide(x[n], y[n], dims[0].bits);
      FlatDecides(rest, x, y);
    }
  }

  lemma FlatInjective(dims: seq<Dim>, x: Coord, y: Coord)
    requires InRange(dims, x) && InRange(dims, y) && Flat(dims, x) == Flat(dims, y)
    ensures x == y
  {
    FlatDecides(dims, x, y);
    forall n | n in x.Keys
      ensures x[n] == y[n]
    {
      var i :| 0 <= i < |dims| && dims[i].name == n;
    }
  }

  // ---------- well-formed layouts and apply ----------

  function InDims(ins: seq<InDim>): (dims: seq<Dim>)
    ensures |dims| == |ins|
    ensures forall i :: 0 <= i < |ins| ==> dims[i] == Dim(ins[i].name, |ins[i].bases|)
  {
    seq(|ins|, i requires 0 <= i < |ins| => Dim(ins[i].name, |ins[i].bases|))
  }

  ghost predicate IsVector(outs: seq<Dim>, v: seq<nat>) {
    |v| == |outs| && forall j :: 0 <= j < |v| ==> v[j] < Pow2(outs[j].bits)
  }

  ghost predicate Vectors(outs: seq<Dim>, bases: seq<seq<nat>>) {
    forall i :: 0 <= i < |bases| ==> IsVector(outs, bases[i])
  }

  ghost predicate AllVectors(outs: seq<Dim>, ins: seq<InDim>) {
    forall d :: 0 <= d < |ins| ==> Vectors(outs, ins[d].bases)
  }

  ghost predicate WellFormed(l: Layout) {
    Distinct(InDims(l.ins)) && Distinct(l.outs) && AllVectors(l.outs, l.ins)
  }

  // Out-dimension j of the image of value v along one in-dimension.
  function DimValue(bases: seq<seq<nat>>, v: nat, j: nat): nat
    requires forall i :: 0 <= i < |bases| ==> j < |bases[i]|
  {
    if |bases| == 0 then 0
    else XorInt(if v % 2 == 1 then bases[0][j] else 0, DimValue(bases[1..], v / 2, j))
  }

  function OutValue(ins: seq<InDim>, x: Coord, j: nat): nat
    requires Covers(InDims(ins), x)
    requires forall d :: 0 <= d < |ins| ==> forall i :: 0 <= i < |ins[d].bases| ==> j < |ins[d].bases[i]|
  {
    if |ins| == 0 then 0
    else
      assert InDims(ins)[0].name in x;
      assert forall i :: 0 <= i < |ins| - 1 ==> InDims(ins[1..])[i] == InDims(ins)[i + 1];
      XorInt(DimValue(ins[0].bases, x[ins[0].name], j), OutValue(ins[1..], x, j))
  }

  function Index(dims: seq<Dim>, n: Name): (i: nat)
    requires n in Names(dims)
    ensures i < |dims| && dims[i].name == n
  {
    if dims[0].name == n then 0
    else
      assert exists i :: 0 <= i < |dims| && dims[i].name == n;
      assert n in Names(dims[1..]) by {
        var i :| 0 <= i < |dims| && dims[i].name == n;
        assert dims[1..][i - 1].name == n;
      }
      1 + Index(dims[1..], n)
  }

  /** `LinearLayout::apply`. */
  function Apply(l: Layout, x: Coord): (y: Coord)
    requires WellFormed(l) && Covers(InDims(l.ins), x)
    ensures y.Keys == Names(l.outs)
  {
    map n | n in Names(l.outs) :: OutValue(l.ins, x, Index(l.outs, n))
  }

  lemma ApplyAt(l: Layout, x: Coord, j: nat)
    requires WellFormed(l) && Covers(InDims(l.ins), x) && j < |l.outs|
    ensures l.outs[j].name in Apply(l, x) && Apply(l, x)[l.outs[j].name] == OutValue(l.ins, x, j)
  {
    var n := l.outs[j].name;
    assert n in Names(l.outs);
    assert Index(l.outs, n) == j;
  }

  lemma {:induction false} DimValueBound(outs: seq<Dim>, bases: seq<seq<nat>>, v: nat, j: nat)
    requires Vectors(outs, bases) && j < |outs|
    ensures DimValue(bases, v, j) < Pow2(outs[j].bits)
  {
    if |bases| > 0 {
      DimValueBound(outs, bases[1..], v / 2, j);
      assert IsVector(outs, bases[0]);
      XorIntBound(if v % 2 == 1 then bases[0][j] else 0, DimValue(bases[1..], v / 2, j), outs[j].bits);
    }
  }

  lemma {:induction false} OutValueBound(outs: seq<Dim>, ins: seq<InDim>, x: Coord, j: nat)
    requires AllVectors(outs, ins) && Covers(InDims(ins), x) && j < |outs|
    ensures OutValue(ins, x, j) < Pow2(outs[j].bits)
  {
    if |ins| > 0 {
      assert forall i :: 0 <= i < |ins| - 1 ==> InDims(ins[1..])[i] == InDims(ins)[i + 1];
      OutValueBound(outs, ins[1..], x, j);
      DimValueBound(outs, ins[0].bases, x[ins[0].name], j);
      XorIntBound(DimValue(ins[0].bases, x[ins[0].name], j), OutValue(ins[1..], x, j), outs[j].bits);
    }
  }

  lemma ApplyInRange(l: Layout, x: Coord)
    requires WellFormed(l) && Covers(InDims(l.ins), x)
    ensures InRange(l.outs, Apply(l, x))
  {
    forall j | 0 <= j < |l.outs|
      ensures l.outs[j].name in Apply(l, x) && Apply(l, x)[l.outs[j].name] < Pow2(l.outs[j].bits)
    {
      ApplyAt(l, x, j);
      OutValueBound(l.outs, l.ins, x, j);
    }
  }
}
