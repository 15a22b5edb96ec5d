/** `operator*` on layouts (lib/Tools/LinearLayout.cpp:603-658): the direct sum of two layouts
whose dimensions may overlap by name. */
module Product {
  import opened Wrappers
  import opened Words
  import opened Arith
  import opened Layout
  import opened LayoutRank

  // ---------- shifts ----------

  lemma {:induction false} XorShift(a: nat, b: nat, s: nat)
    ensures XorInt(a * Pow2(s), b * Pow2(s)) == XorInt(a, b) * Pow2(s)
  {
    hide XorInt;
    if s > 0 {
      XorShift(a, b, s - 1);
      XorShiftTwice(a, b, Pow2(s - 1), Pow2(s));
    }
  }

  lemma XorShiftTwice(a: nat, b: nat, p: nat, q: nat)
    requires q == 2 * p && XorInt(a * p, b * p) == XorInt(a, b) * p
    ensures XorInt(a * q, b * q) == XorInt(a, b) * q
  {
    hide XorInt;
    DoubleTimes(a, p);
    DoubleTimes(b, p);
    DoubleTimes(XorInt(a, b), p);
    XorDouble(a * p, b * p);
  }

  lemma DoubleTimes(a: nat, p: nat)
    ensures a * (2 * p) == 2 * (a * p)
  {
  }

  lemma XorDouble(a: nat, b: nat)
    ensures XorInt(2 * a, 2 * b) == 2 * XorInt(a, b)
  {
    hide XorInt;
    XorIntParts(2 * a, 2 * b);
  }

  // Nothing overlaps: xor is addition.
  lemma {:induction false} XorIsSum(a: nat, b: nat, s: nat)
    requires a < Pow2(s)
    ensures XorInt(a, b * Pow2(s)) == a + b * Pow2(s)
  {
    hide XorInt;
    if s == 0 {
      XorIntZero(b);
    } else {
      var p := Pow2(s - 1);
      DoubleTimes(b, p);
      XorIsSum(a / 2, b, s - 1);
      XorIntParts(a, 2 * (b * p));
    }
  }

  // ---------- one in-dimension ----------

  lemma {:induction false} DimValueZero(bases: seq<seq<nat>>, j: nat)
    requires forall i :: 0 <= i < |bases| ==> j < |bases[i]|
    ensures DimValue(bases, 0, j) == 0
  {
    if |bases| > 0 {
      DimValueZero(bases[1..], j);
    }
  }

  ghost predicate Has(bases: seq<seq<nat>>, j: nat) {
    forall i :: 0 <= i < |bases| ==> j < |bases[i]|
  }

  lemma HasTail(bases: seq<seq<nat>>, j: nat)
    requires Has(bases, j) && |bases| > 0
    ensures Has(bases[1..], j) && j < |bases[0]|
  {
  }

  lemma HalfSum(low: nat, high: nat, p: nat)
    requires p > 0
    ensures (low + high * (2 * p)) / 2 == low / 2 + high * p && (low + high * (2 * p)) % 2 == low % 2
  {
    DoubleTimes(high, p);
  }

  lemma DimValueStep(bases: seq<seq<nat>>, v: nat, j: nat)
    requires Has(bases, j) && |bases| > 0
    ensures Has(bases[1..], j)
    ensures DimValue(bases, v, j) == XorInt(if v % 2 == 1 then bases[0][j] else 0, DimValue(bases[1..], v / 2, j))
  {
    hide XorInt;
  }

  // The low bits select from the front, the remaining ones from the rest.
  lemma {:induction false} DimValueAppend(a: seq<seq<nat>>, b: seq<seq<nat>>, low: nat, high: nat, j: nat)
    requires Has(a, j) && Has(b, j) && Has(a + b, j) && low < Pow2(|a|)
    ensures DimValue(a + b, low + high * Pow2(|a|), j) == XorInt(DimValue(a, low, j), DimValue(b, high, j))
  {
    if |a| == 0 {
      assert a + b == b;
      XorIntZero(DimValue(b, high, j));
    } else {
      var p := Pow2(|a| - 1);
      var v := low + high * Pow2(|a|);
      hide XorInt, Pow2, DimValue;
      HalfSum(low, high, p);
      DimValueStep(a + b, v, j);
      DimValueStep(a, low, j);
      AppendTail(a, b);
      DimValueAppend(a[1..], b, low / 2, high, j);
      XorIntAssoc(if low % 2 == 1 then a[0][j] else 0, DimValue(a[1..], low / 2, j), DimValue(b, high, j));
    }
  }

  // Bases whose entries are `2^s` times those of `b` produce `2^s` times its value.
  lemma {:induction false} DimValueScaled(a: seq<seq<nat>>, b: seq<seq<nat>>, v: nat, j: nat, k: nat, s: nat)
    requires |a| == |b| && Has(a, j) && Has(b, k)
    requires forall i :: 0 <= i < |a| ==> j < |a[i]| && k < |b[i]| && a[i][j] == b[i][k] * Pow2(s)
    ensures DimValue(a, v, j) == DimValue(b, v, k) * Pow2(s)
  {
    if |a| > 0 {
      HasTail(a, j);
      HasTail(b, k);
      DimValueScaled(a[1..], b[1..], v / 2, j, k, s);
      XorShift(if v % 2 == 1 then b[0][k] else 0, DimValue(b[1..], v / 2, k), s);
    }
  }

  lemma {:induction false} DimValueOfZeros(a: seq<seq<nat>>, v: nat, j: nat)
    requires Has(a, j) && forall i :: 0 <= i < |a| ==> j < |a[i]| && a[i][j] == 0
    ensures DimValue(a, v, j) == 0
  {
    if |a| > 0 {
      HasTail(a, j);
      DimValueOfZeros(a[1..], v / 2, j);
    }
  }

  lemma DimValueOfNone(a: seq<seq<nat>>, v: nat, w: nat, j: nat)
    requires |a| == 0
    ensures DimValue(a, v, j) == DimValue(a, w, j)
  {
  }

  // ---------- dimensions by name ----------

  function BitsOf(dims: seq<Dim>, n: Name): nat {
    if n in Names(dims) then dims[Index(dims, n)].bits else 0
  }

  // The bases of in-dimension n; none if there is no such dimension.
  function InBases(ins: seq<InDim>, n: Name): (b: seq<seq<nat>>)
  {
    if |ins| == 0 then [] else if ins[0].name == n then ins[0].bases else InBases(ins[1..], n)
  }

  function ValueOr0(x: Coord, n: Name): nat {
    if n in x then x[n] else 0
  }

  ghost predicate AllHave(ins: seq<InDim>, j: nat) {
    forall d :: 0 <= d < |ins| ==> Has(ins[d].bases, j)
  }

  lemma {:induction false} InBasesHave(ins: seq<InDim>, n: Name, j: nat)
    requires AllHave(ins, j)
    ensures Has(InBases(ins, n), j)
  {
    if |ins| > 0 && ins[0].name != n {
      assert AllHave(ins[1..], j);
      InBasesHave(ins[1..], n, j);
    }
  }

  lemma {:induction false} InBasesSize(ins: seq<InDim>, n: Name)
    ensures |InBases(ins, n)| == BitsOf(InDims(ins), n)
  {
    var dims := InDims(ins);
    if |ins| > 0 {
      assert dims[1..] == InDims(ins[1..]);
      InBasesSize(ins[1..], n);
      if ins[0].name == n {
        assert dims[0].name in Names(dims);
      } else {
        forall m ensures m in Names(dims) <==> m == dims[0].name || m in Names(dims[1..]) {
          if m in Names(dims) && m != dims[0].name {
            var i :| 0 <= i < |dims| && dims[i].name == m;
            assert dims[1..][i - 1].name == m;
          }
          if m in Names(dims[1..]) {
            var i :| 0 <= i < |dims| - 1 && dims[1..][i].name == m;
            assert dims[i + 1].name == m;
          }
        }
      }
    }
  }

  // What dimension n contributes to out position j.
  ghost function Contribution(ins: seq<InDim>, x: Coord, n: Name, j: nat): nat
    requires AllHave(ins, j)
  {
    InBasesHave(ins, n, j);
    DimValue(InBases(ins, n), ValueOr0(x, n), j)
  }

  ghost function XorNames(names: seq<Name>, ins: seq<InDim>, x: Coord, j: nat): nat
    requires AllHave(ins, j)
  {
    if |names| == 0 then 0 else XorInt(Contribution(ins, x, names[0], j), XorNames(names[1..], ins, x, j))
  }

  function Without(names: seq<Name>, k: nat): (r: seq<Name>)
    requires k < |names|
  {
    names[..k] + names[k + 1..]
  }

  lemma {:induction false} XorNamesRemove(names: seq<Name>, ins: seq<InDim>, x: Coord, j: nat, k: nat)
    requires AllHave(ins, j) && k < |names|
    ensures XorNames(names, ins, x, j) == XorInt(Contribution(ins, x, names[k], j), XorNames(Without(names, k), ins, x, j))
  {
    if k == 0 {
      assert Without(names, 0) == names[1..];
    } else {
      var rest := Without(names[1..], k - 1);
      assert Without(names, k)[1..] == rest && Without(names, k)[0] == names[0];
      XorNamesRemove(names[1..], ins, x, j, k - 1);
      var a, b, c := Contribution(ins, x, names[0], j), Contribution(ins, x, names[k], j), XorNames(rest, ins, x, j);
      XorIntAssoc(a, b, c);
      XorIntComm(a, b);
      XorIntAssoc(b, a, c);
    }
  }

  // Names that the first dimension does not bear see only the others.
  lemma {:induction false} XorNamesTail(names: seq<Name>, ins: seq<InDim>, x: Coord, j: nat)
    requires |ins| > 0 && AllHave(ins, j) && AllHave(ins[1..], j)
    requires forall i :: 0 <= i < |names| ==> names[i] != ins[0].name
    ensures XorNames(names, ins, x, j) == XorNames(names, ins[1..], x, j)
  {
    if |names| > 0 {
      assert forall i :: 0 <= i < |names| - 1 ==> names[1..][i] == names[i + 1];
      XorNamesTail(names[1..], ins, x, j);
      assert Contribution(ins, x, names[0], j) == Contribution(ins[1..], x, names[0], j);
    }
  }

  lemma {:induction false} XorNamesNone(names: seq<Name>, x: Coord, j: nat)
    ensures XorNames(names, [], x, j) == 0
  {
    if |names| > 0 {
      XorNamesNone(names[1..], x, j);
      assert Contribution([], x, names[0], j) == 0;
    }
  }

  ghost predicate DistinctNames(names: seq<Name>) {
    forall i, k :: 0 <= i < k < |names| ==> names[i] != names[k]
  }

  lemma WithoutKeeps(names: seq<Name>, k: nat, n: Name)
    requires k < |names| && n in names && n != names[k]
    ensures n in Without(names, k)
  {
    var i :| 0 <= i < |names| && names[i] == n;
    assert Without(names, k)[if i < k then i else i - 1] == n;
  }

  lemma WithoutFits(names: seq<Name>, k: nat)
    requires k < |names| && DistinctNames(names)
    ensures DistinctNames(Without(names, k))
    ensures forall i :: 0 <= i < |Without(names, k)| ==> Without(names, k)[i] != names[k]
  {
  }

  // The conditions of OutValueByNames pass on to the remaining dimensions.
  lemma TailFits(ins: seq<InDim>, x: Coord, j: nat)
    requires |ins| > 0 && AllHave(ins, j) && Covers(InDims(ins), x) && Distinct(InDims(ins))
    ensures AllHave(ins[1..], j) && Covers(InDims(ins[1..]), x) && Distinct(InDims(ins[1..]))
    ensures forall d :: 1 <= d < |ins| ==> ins[d].name != ins[0].name
  {
    assert forall d :: 0 <= d < |ins| - 1 ==> ins[1..][d] == ins[d + 1] && InDims(ins[1..])[d] == InDims(ins)[d + 1];
    forall d | 1 <= d < |ins|
      ensures ins[d].name != ins[0].name
    {
      assert InDims(ins)[0].name != InDims(ins)[d].name;
    }
  }

  /** A layout's value can be accumulated over its dimensions in any order, and over extra names. */
  lemma {:induction false} OutValueByNames(names: seq<Name>, ins: seq<InDim>, x: Coord, j: nat)
    requires AllHave(ins, j) && Covers(InDims(ins), x) && Distinct(InDims(ins)) && DistinctNames(names)
    requires forall d :: 0 <= d < |ins| ==> ins[d].name in names
    ensures OutValue(ins, x, j) == XorNames(names, ins, x, j)
    decreases |ins|
  {
    hide XorNames, XorInt, DimValue, Covers, Distinct, AllHave, DistinctNames, Contribution;
    if |ins| == 0 {
      XorNamesNone(names, x, j);
    } else {
      var k :| 0 <= k < |names| && names[k] == ins[0].name;
      var rest, tail := Without(names, k), ins[1..];
      TailFits(ins, x, j);
      WithoutFits(names, k);
      forall d | 0 <= d < |tail| ensures tail[d].name in rest {
        assert tail[d] == ins[d + 1];
        WithoutKeeps(names, k, tail[d].name);
      }
      OutValueByNames(rest, tail, x, j);
      XorNamesTail(rest, ins, x, j);
      XorNamesRemove(names, ins, x, j, k);
      HeadContribution(ins, x, j);
    }
  }

  lemma HeadContribution(ins: seq<InDim>, x: Coord, j: nat)
    requires |ins| > 0 && AllHave(ins, j) && Covers(InDims(ins), x)
    ensures AllHave(ins[1..], j) && Covers(InDims(ins[1..]), x)
    ensures OutValue(ins, x, j) == XorInt(Contribution(ins, x, ins[0].name, j), OutValue(ins[1..], x, j))
  {
    hide XorInt, DimValue;
    assert InDims(ins)[0].name in x;
    assert forall d :: 0 <= d < |ins| - 1 ==> ins[1..][d] == ins[d + 1] && InDims(ins[1..])[d] == InDims(ins)[d + 1];
  }

  // ---------- the product ----------

  // Dimensions of `a` first, then those only in `b`; common dimensions add their bits.
  function Merged(a: seq<Dim>, b: seq<Dim>): (m: seq<Dim>)
  {
    seq(|a|, i requires 0 <= i < |a| => Dim(a[i].name, a[i].bits + BitsOf(b, a[i].name))) + OnlyIn(b, Names(a))
  }

  function OnlyIn(b: seq<Dim>, names: set<Name>): (m: seq<Dim>)
    ensures forall i :: 0 <= i < |m| ==> m[i] in b && m[i].name !in names
    ensures forall i :: 0 <= i < |b| && b[i].name !in names ==> b[i] in m
  {
    if |b| == 0 then []
    else (if b[0].name in names then [] else [b[0]]) + OnlyIn(b[1..], names)
  }

  function Entry(inner: Layout, outer: Layout, n: Name, k: nat, o: Name): nat
    requires WellFormed(inner) && WellFormed(outer)
    requires k < |InBases(inner.ins, n)| + |InBases(outer.ins, n)|
  {
    var a := |InBases(inner.ins, n)|;
    if k < a then
      if o in Names(inner.outs) then EntryOf(inner, n, k, o) else 0
    else
      if o in Names(outer.outs) then EntryOf(outer, n, k - a, o) * Pow2(BitsOf(inner.outs, o)) else 0
  }

  // `getBasis(n, k, o)`
  function EntryOf(l: Layout, n: Name, k: nat, o: Name): (v: nat)
    requires WellFormed(l) && k < |InBases(l.ins, n)| && o in Names(l.outs)
    ensures Index(l.outs, o) < |InBases(l.ins, n)[k]| && v == InBases(l.ins, n)[k][Index(l.outs, o)]
    ensures v < Pow2(BitsOf(l.outs, o))
  {
    InBasesVectors(l.outs, l.ins, n);
    assert IsVector(l.outs, InBases(l.ins, n)[k]);
    InBases(l.ins, n)[k][Index(l.outs, o)]
  }

  lemma {:induction false} InBasesVectors(outs: seq<Dim>, ins: seq<InDim>, n: Name)
    requires AllVectors(outs, ins)
    ensures Vectors(outs, InBases(ins, n))
  {
    if |ins| > 0 {
      if ins[0].name == n {
        assert Vectors(outs, ins[0].bases);
      } else {
        InBasesVectors(outs, ins[1..], n);
      }
    }
  }

  function ProductBases(inner: Layout, outer: Layout, n: Name, outs: seq<Dim>): (b: seq<seq<nat>>)
    requires WellFormed(inner) && WellFormed(outer)
    ensures |b| == |InBases(inner.ins, n)| + |InBases(outer.ins, n)|
    ensures forall k :: 0 <= k < |b| ==> |b[k]| == |outs| && forall j :: 0 <= j < |outs| ==> b[k][j] == Entry(inner, outer, n, k, outs[j].name)
  {
    seq(|InBases(inner.ins, n)| + |InBases(outer.ins, n)|, k requires 0 <= k < |InBases(inner.ins, n)| + |InBases(outer.ins, n)| =>
      seq(|outs|, j requires 0 <= j < |outs| => Entry(inner, outer, n, k, outs[j].name)))
  }

  /** `inner * outer`. */
  function Times(inner: Layout, outer: Layout): (l: Layout)
    requires WellFormed(inner) && WellFormed(outer)
  {
    var ins, outs := Merged(InDims(inner.ins), InDims(outer.ins)), Merged(inner.outs, outer.outs);
    Layout(seq(|ins|, d requires 0 <= d < |ins| => InDim(ins[d].name, ProductBases(inner, outer, ins[d].name, outs))), outs)
  }

  // ---------- names and sizes of merged dimensions ----------

  lemma InNames(dims: seq<Dim>, i: nat)
    requires i < |dims|
    ensures dims[i].name in Names(dims)
  {
  }

  lemma BitsAt(dims: seq<Dim>, i: nat)
    requires Distinct(dims) && i < |dims|
    ensures BitsOf(dims, dims[i].name) == dims[i].bits
  {
    InNames(dims, i);
    assert Index(dims, dims[i].name) == i;
  }

  lemma {:induction false} OnlyInDistinct(b: seq<Dim>, names: set<Name>)
    requires Distinct(b)
    ensures Distinct(OnlyIn(b, names))
  {
    hide Distinct;
    if |b| > 0 {
      DistinctTail(b);
      OnlyInDistinct(b[1..], names);
      DistinctCons(b[0], OnlyIn(b[1..], names));
    } else {
      assert OnlyIn(b, names) == b;
    }
  }

  lemma DistinctTail(b: seq<Dim>)
    requires Distinct(b) && |b| > 0
    ensures Distinct(b[1..])
    ensures forall d :: d in b[1..] ==> d.name != b[0].name
  {
    assert forall i :: 0 <= i < |b| - 1 ==> b[1..][i] == b[i + 1];
  }

  lemma DistinctCons(d: Dim, rest: seq<Dim>)
    requires Distinct(rest) && forall i :: 0 <= i < |rest| ==> rest[i].name != d.name
    ensures Distinct([d] + rest) && Distinct([] + rest)
  {
    assert [] + rest == rest;
  }

  // Position i of the merged dimensions comes from `a` or only from `b`.
  lemma MergedAt(a: seq<Dim>, b: seq<Dim>, i: nat)
    requires Distinct(a) && Distinct(b) && i < |Merged(a, b)|
    ensures var d := Merged(a, b)[i];
            d.name in Names(a) + Names(b) && d.bits == BitsOf(a, d.name) + BitsOf(b, d.name)
  {
    if i < |a| {
      InNames(a, i);
      BitsAt(a, i);
    } else {
      var d := OnlyIn(b, Names(a))[i - |a|];
      var k :| 0 <= k < |b| && b[k] == d;
      BitsAt(b, k);
      InNames(b, k);
    }
  }

  lemma MergedDistinct(a: seq<Dim>, b: seq<Dim>)
    requires Distinct(a) && Distinct(b)
    ensures Distinct(Merged(a, b))
  {
    var m, only := Merged(a, b), OnlyIn(b, Names(a));
    OnlyInDistinct(b, Names(a));
    forall i, j | 0 <= i < j < |m|
      ensures m[i].name != m[j].name
    {
      if i < |a| {
        InNames(a, i);
      }
      if j < |a| {
        assert a[i].name != a[j].name;
      }
    }
  }

  lemma MergedHas(a: seq<Dim>, b: seq<Dim>, n: Name)
    requires n in Names(a) + Names(b)
    ensures n in Names(Merged(a, b))
  {
    var m := Merged(a, b);
    if n in Names(a) {
      var i :| 0 <= i < |a| && a[i].name == n;
      assert m[i].name == n;
      InNames(m, i);
    } else {
      var only := OnlyIn(b, Names(a));
      var k :| 0 <= k < |b| && b[k].name == n;
      var i :| 0 <= i < |only| && only[i] == b[k];
      assert m[|a| + i] == only[i];
      InNames(m, |a| + i);
    }
  }

  /** The merged dimensions are the union of the names, each with the sum of the bits. */
  lemma MergedDims(a: seq<Dim>, b: seq<Dim>)
    requires Distinct(a) && Distinct(b)
    ensures Distinct(Merged(a, b)) && Names(Merged(a, b)) == Names(a) + Names(b)
    ensures forall i :: 0 <= i < |Merged(a, b)| ==>
              Merged(a, b)[i].bits == BitsOf(a, Merged(a, b)[i].name) + BitsOf(b, Merged(a, b)[i].name)
  {
    var m := Merged(a, b);
    MergedDistinct(a, b);
    forall i | 0 <= i < |m|
      ensures m[i].bits == BitsOf(a, m[i].name) + BitsOf(b, m[i].name)
    {
      MergedAt(a, b, i);
    }
    forall n | n in Names(a) + Names(b)
      ensures n in Names(m)
    {
      MergedHas(a, b, n);
    }
    forall n | n in Names(m)
      ensures n in Names(a) + Names(b)
    {
      var i :| 0 <= i < |m| && m[i].name == n;
      MergedAt(a, b, i);
    }
  }

  // ---------- well-formedness ----------

  lemma EntryBound(inner: Layout, outer: Layout, n: Name, k: nat, o: Name)
    requires WellFormed(inner) && WellFormed(outer)
    requires k < |InBases(inner.ins, n)| + |InBases(outer.ins, n)|
    ensures Entry(inner, outer, n, k, o) < Pow2(BitsOf(inner.outs, o) + BitsOf(outer.outs, o))
  {
    var p, q := Pow2(BitsOf(inner.outs, o)), Pow2(BitsOf(outer.outs, o));
    Pow2Adds(BitsOf(inner.outs, o), BitsOf(outer.outs, o));
    var a := |InBases(inner.ins, n)|;
    if k < a {
      if o in Names(inner.outs) {
        ProductBound(EntryOf(inner, n, k, o), p, q);
      }
    } else if o in Names(outer.outs) {
      ProductBound2(EntryOf(outer, n, k - a, o), p, q);
    }
  }

  lemma ProductBound(v: nat, p: nat, q: nat)
    requires v < p && q > 0
    ensures v < p * q
  {
    assert p * q == p + p * (q - 1);
  }

  lemma ProductBound2(v: nat, p: nat, q: nat)
    requires v < q && p > 0
    ensures v * p < p * q
  {
    assert p * q - v * p == p * (q - v);
    ProductBound(0, p, q - v);
  }

  lemma TimesDims(inner: Layout, outer: Layout)
    requires WellFormed(inner) && WellFormed(outer)
    ensures InDims(Times(inner, outer).ins) == Merged(InDims(inner.ins), InDims(outer.ins))
  {
    var l, ins := Times(inner, outer), Merged(InDims(inner.ins), InDims(outer.ins));
    forall d | 0 <= d < |ins|
      ensures InDims(l.ins)[d] == ins[d]
    {
      TimesDim(inner, outer, d);
    }
  }

  lemma TimesDim(inner: Layout, outer: Layout, d: nat)
    requires WellFormed(inner) && WellFormed(outer) && d < |Merged(InDims(inner.ins), InDims(outer.ins))|
    ensures var dim := Merged(InDims(inner.ins), InDims(outer.ins))[d];
            dim.bits == |InBases(inner.ins, dim.name)| + |InBases(outer.ins, dim.name)|
  {
    var a, b := InDims(inner.ins), InDims(outer.ins);
    MergedAt(a, b, d);
    InBasesSize(inner.ins, Merged(a, b)[d].name);
    InBasesSize(outer.ins, Merged(a, b)[d].name);
  }

  lemma TimesWellFormed(inner: Layout, outer: Layout)
    requires WellFormed(inner) && WellFormed(outer)
    ensures WellFormed(Times(inner, outer))
  {
    var l := Times(inner, outer);
    TimesDims(inner, outer);
    MergedDims(InDims(inner.ins), InDims(outer.ins));
    MergedDims(inner.outs, outer.outs);
    forall d | 0 <= d < |l.ins|
      ensures Vectors(l.outs, l.ins[d].bases)
    {
      forall k | 0 <= k < |l.ins[d].bases|
        ensures IsVector(l.outs, l.ins[d].bases[k])
      {
        ProductVector(inner, outer, l.ins[d].name, k);
      }
    }
  }

  lemma ProductVector(inner: Layout, outer: Layout, n: Name, k: nat)
    requires WellFormed(inner) && WellFormed(outer)
    requires k < |InBases(inner.ins, n)| + |InBases(outer.ins, n)|
    ensures IsVector(Merged(inner.outs, outer.outs), ProductBases(inner, outer, n, Merged(inner.outs, outer.outs))[k])
  {
    hide Entry, Merged;
    var outs := Merged(inner.outs, outer.outs);
    MergedDims(inner.outs, outer.outs);
    forall j | 0 <= j < |outs|
      ensures ProductBases(inner, outer, n, outs)[k][j] < Pow2(outs[j].bits)
    {
      EntryBound(inner, outer, n, k, outs[j].name);
    }
  }

  // ---------- the direct sum ----------

  // The bits of each value that belong to `a`, and the remaining ones.
  ghost function LowPart(a: seq<Dim>, t: Coord): (y: Coord)
    ensures y.Keys == Names(a)
  {
    map n | n in Names(a) :: ModPow2(ValueOr0(t, n), BitsOf(a, n))
  }

  ghost function HighPart(a: seq<Dim>, b: seq<Dim>, t: Coord): (z: Coord)
    ensures z.Keys == Names(b)
  {
    map n | n in Names(b) :: DivPow2(ValueOr0(t, n), BitsOf(a, n))
  }

  // The low bits of each value are inner's, the high bits outer's.
  ghost function Low(inner: Layout, x: Coord): (y: Coord)
    ensures y.Keys == Names(InDims(inner.ins))
  {
    LowPart(InDims(inner.ins), x)
  }

  ghost function High(inner: Layout, outer: Layout, x: Coord): (y: Coord)
    ensures y.Keys == Names(InDims(outer.ins))
  {
    HighPart(InDims(inner.ins), InDims(outer.ins), x)
  }

  function ModPow2(v: nat, k: nat): (r: nat)
    ensures r == v % Pow2(k) && r < Pow2(k)
  {
    v % Pow2(k)
  }

  function DivPow2(v: nat, k: nat): nat
  {
    Quot(v, Pow2(k))
  }

  lemma ModDiv(v: nat, k: nat)
    ensures v == ModPow2(v, k) + DivPow2(v, k) * Pow2(k)
  {
  }

  lemma DivPow2Small(v: nat, k: nat, n: nat)
    requires v < Pow2(k + n)
    ensures DivPow2(v, k) < Pow2(n)
  {
    Pow2Adds(k, n);
    var p, q := Pow2(k), Pow2(n);
    ModDiv(v, k);
    if DivPow2(v, k) >= q {
      MulAtLeast(DivPow2(v, k), q, p);
    }
  }

  lemma MulAtLeast(a: nat, b: nat, p: nat)
    requires a >= b
    ensures a * p >= p * b
  {
    assert a * p - p * b == (a - b) * p;
  }

  lemma LowHighCover(inner: Layout, outer: Layout, x: Coord)
    ensures Covers(InDims(inner.ins), Low(inner, x)) && Covers(InDims(outer.ins), High(inner, outer, x))
  {
    forall i | 0 <= i < |InDims(inner.ins)| ensures InDims(inner.ins)[i].name in Low(inner, x) {
      InNames(InDims(inner.ins), i);
    }
    forall i | 0 <= i < |InDims(outer.ins)| ensures InDims(outer.ins)[i].name in High(inner, outer, x) {
      InNames(InDims(outer.ins), i);
    }
  }

  lemma WellFormedHave(l: Layout, j: nat)
    requires WellFormed(l) && j < |l.outs|
    ensures AllHave(l.ins, j)
  {
    forall d, i | 0 <= d < |l.ins| && 0 <= i < |l.ins[d].bases|
      ensures j < |l.ins[d].bases[i]|
    {
      assert Vectors(l.outs, l.ins[d].bases);
      assert IsVector(l.outs, l.ins[d].bases[i]);
    }
  }

  // What in-dimension n of `l` contributes to out-dimension o; 0 if `l` has no such dimensions.
  ghost function Part(l: Layout, x: Coord, n: Name, o: Name): nat
    requires WellFormed(l)
  {
    if o in Names(l.outs) then
      WellFormedHave(l, Index(l.outs, o));
      Contribution(l.ins, x, n, Index(l.outs, o))
    else 0
  }

  ghost function XorParts(names: seq<Name>, l: Layout, x: Coord, o: Name): nat
    requires WellFormed(l)
  {
    if |names| == 0 then 0 else XorInt(Part(l, x, names[0], o), XorParts(names[1..], l, x, o))
  }

  lemma {:induction false} XorPartsIs(names: seq<Name>, l: Layout, x: Coord, o: Name)
    requires WellFormed(l)
    ensures o !in Names(l.outs) ==> XorParts(names, l, x, o) == 0
    ensures o in Names(l.outs) ==> AllHave(l.ins, Index(l.outs, o)) && XorParts(names, l, x, o) == XorNames(names, l.ins, x, Index(l.outs, o))
  {
    if o in Names(l.outs) {
      WellFormedHave(l, Index(l.outs, o));
    }
    if |names| > 0 {
      XorPartsIs(names[1..], l, x, o);
    }
  }

  // A layout's value at o, accumulated over any list of names that has its in-dimensions.
  lemma ValueByParts(names: seq<Name>, l: Layout, x: Coord, o: Name)
    requires WellFormed(l) && Covers(InDims(l.ins), x) && DistinctNames(names)
    requires forall d :: 0 <= d < |l.ins| ==> l.ins[d].name in names
    ensures ValueOr0(Apply(l, x), o) == XorParts(names, l, x, o)
  {
    XorPartsIs(names, l, x, o);
    if o in Names(l.outs) {
      var j := Index(l.outs, o);
      ApplyAt(l, x, j);
      OutValueByNames(names, l.ins, x, j);
    }
  }

  lemma {:induction false} InBasesOfDim(ins: seq<InDim>, d: nat)
    requires Distinct(InDims(ins)) && d < |ins|
    ensures InBases(ins, ins[d].name) == ins[d].bases
  {
    if d > 0 {
      assert InDims(ins)[0].name != InDims(ins)[d].name;
      assert InDims(ins)[1..] == InDims(ins[1..]);
      assert forall i :: 0 <= i < |ins| - 1 ==> InDims(ins[1..])[i] == InDims(ins)[i + 1];
      InBasesOfDim(ins[1..], d - 1);
    }
  }

  // What inner and outer make of dimension n, together.
  ghost function BothParts(inner: Layout, outer: Layout, x: Coord, n: Name, o: Name): nat
    requires WellFormed(inner) && WellFormed(outer)
  {
    XorInt(Part(inner, Low(inner, x), n, o), Part(outer, High(inner, outer, x), n, o) * Pow2(BitsOf(inner.outs, o)))
  }

  // One in-dimension of the product: the low bits feed inner, the high bits outer.
  lemma BasesSplit(inner: Layout, outer: Layout, x: Coord, n: Name, o: Name, outs: seq<Dim>, j: nat)
    requires WellFormed(inner) && WellFormed(outer)
    requires j < |outs| && outs[j].name == o
    ensures Has(ProductBases(inner, outer, n, outs), j)
    ensures DimValue(ProductBases(inner, outer, n, outs), ValueOr0(x, n), j) == BothParts(inner, outer, x, n, o)
  {
    var bases, k := ProductBases(inner, outer, n, outs), |InBases(inner.ins, n)|;
    var a, b := bases[..k], bases[k..];
    var v := ValueOr0(x, n);
    assert bases == a + b;
    InnerPart(inner, outer, x, n, o, a, j);
    OuterPart(inner, outer, x, n, o, b, j);
    ModDiv(v, k);
    DimValueAppend(a, b, ModPow2(v, k), DivPow2(v, k), j);
  }

  lemma TimesContribution(inner: Layout, outer: Layout, x: Coord, d: nat, j: nat)
    requires WellFormed(inner) && WellFormed(outer) && Distinct(InDims(Times(inner, outer).ins))
    requires d < |Times(inner, outer).ins| && j < |Times(inner, outer).outs| && AllHave(Times(inner, outer).ins, j)
    ensures Contribution(Times(inner, outer).ins, x, Times(inner, outer).ins[d].name, j) ==
            BothParts(inner, outer, x, Times(inner, outer).ins[d].name, Times(inner, outer).outs[j].name)
  {
    var l := Times(inner, outer);
    InBasesOfDim(l.ins, d);
    BasesSplit(inner, outer, x, l.ins[d].name, l.outs[j].name, l.outs, j);
  }

  lemma InnerPart(inner: Layout, outer: Layout, x: Coord, n: Name, o: Name, a: seq<seq<nat>>, j: nat)
    requires WellFormed(inner) && WellFormed(outer) && Has(a, j) && |a| == |InBases(inner.ins, n)|
    requires forall k :: 0 <= k < |a| ==> j < |a[k]| && a[k][j] == Entry(inner, outer, n, k, o)
    ensures DimValue(a, ModPow2(ValueOr0(x, n), |a|), j) == Part(inner, Low(inner, x), n, o)
  {
    var bi, low := InBases(inner.ins, n), ModPow2(ValueOr0(x, n), |a|);
    InBasesSize(inner.ins, n);
    if o in Names(inner.outs) {
      var i := Index(inner.outs, o);
      WellFormedHave(inner, i);
      InBasesHave(inner.ins, n, i);
      forall k | 0 <= k < |a|
        ensures i < |bi[k]| && a[k][j] == bi[k][i] * Pow2(0)
      {
        assert EntryOf(inner, n, k, o) == bi[k][i];
      }
      DimValueScaled(a, bi, low, j, i, 0);
      if n !in Names(InDims(inner.ins)) {
        assert a == [] && bi == [];
      }
    } else {
      DimValueOfZeros(a, low, j);
    }
  }

  lemma OuterPart(inner: Layout, outer: Layout, x: Coord, n: Name, o: Name, b: seq<seq<nat>>, j: nat)
    requires WellFormed(inner) && WellFormed(outer) && Has(b, j) && |b| == |InBases(outer.ins, n)|
    requires forall k :: 0 <= k < |b| ==> j < |b[k]| && b[k][j] == Entry(inner, outer, n, |InBases(inner.ins, n)| + k, o)
    ensures DimValue(b, DivPow2(ValueOr0(x, n), |InBases(inner.ins, n)|), j)
            == Part(outer, High(inner, outer, x), n, o) * Pow2(BitsOf(inner.outs, o))
  {
    hide Pow2, DivPow2, DimValue, XorInt;
    var bo, high := InBases(outer.ins, n), DivPow2(ValueOr0(x, n), |InBases(inner.ins, n)|);
    InBasesSize(inner.ins, n);
    InBasesSize(outer.ins, n);
    if o in Names(outer.outs) {
      var i := Index(outer.outs, o);
      WellFormedHave(outer, i);
      InBasesHave(outer.ins, n, i);
      forall k | 0 <= k < |b|
        ensures i < |bo[k]| && b[k][j] == bo[k][i] * Pow2(BitsOf(inner.outs, o))
      {
        assert EntryOf(outer, n, k, o) == bo[k][i];
      }
      DimValueScaled(b, bo, high, j, i, BitsOf(inner.outs, o));
      if n !in Names(InDims(outer.ins)) {
        DimValueOfNone(bo, high, ValueOr0(High(inner, outer, x), n), i);
      }
    } else {
      DimValueOfZeros(b, high, j);
    }
  }

  // What inner and outer make of all listed dimensions, together.
  ghost function AllParts(inner: Layout, outer: Layout, x: Coord, names: seq<Name>, o: Name): nat
    requires WellFormed(inner) && WellFormed(outer)
  {
    XorInt(XorParts(names, inner, Low(inner, x), o), XorParts(names, outer, High(inner, outer, x), o) * Pow2(BitsOf(inner.outs, o)))
  }

  lemma {:induction false} PartsSplit(ins: seq<InDim>, inner: Layout, outer: Layout, x: Coord, names: seq<Name>, o: Name, j: nat)
    requires WellFormed(inner) && WellFormed(outer) && AllHave(ins, j)
    requires forall i :: 0 <= i < |names| ==> Contribution(ins, x, names[i], j) == BothParts(inner, outer, x, names[i], o)
    ensures XorNames(names, ins, x, j) == AllParts(inner, outer, x, names, o)
  {
    hide XorInt, Pow2, Contribution, Part, Low, High, AllHave, WellFormed;
    if |names| > 0 {
      var s, n, rest := BitsOf(inner.outs, o), names[0], names[1..];
      assert forall i :: 0 <= i < |rest| ==> rest[i] == names[i + 1];
      PartsSplit(ins, inner, outer, x, rest, o, j);
      CombineParts(Part(inner, Low(inner, x), n, o), Part(outer, High(inner, outer, x), n, o),
                   XorParts(rest, inner, Low(inner, x), o), XorParts(rest, outer, High(inner, outer, x), o), s);
    } else {
      XorIntZero(0);
    }
  }

  lemma CombineParts(a: nat, b: nat, c: nat, d: nat, s: nat)
    ensures XorInt(XorInt(a, b * Pow2(s)), XorInt(c, d * Pow2(s))) == XorInt(XorInt(a, c), XorInt(b, d) * Pow2(s))
  {
    hide XorInt, Pow2;
    XorShift(b, d, s);
    XorExchange(a, b * Pow2(s), c, d * Pow2(s));
  }

  function NameSeq(dims: seq<Dim>): (names: seq<Name>)
    ensures |names| == |dims| && forall i :: 0 <= i < |names| ==> names[i] == dims[i].name
  {
    seq(|dims|, i requires 0 <= i < |dims| => dims[i].name)
  }

  /** The product is the direct sum: out value = inner's value of the low bits plus outer's value
      of the high bits shifted by inner's out bits. */
  lemma TimesIsDirectSum(inner: Layout, outer: Layout, x: Coord, o: Name)
    requires WellFormed(inner) && WellFormed(outer) && o in Names(Times(inner, outer).outs)
    ensures WellFormed(Times(inner, outer))
    ensures Covers(InDims(inner.ins), Low(inner, x)) && Covers(InDims(outer.ins), High(inner, outer, x))
    ensures Covers(InDims(Times(inner, outer).ins), x) ==>
              Apply(Times(inner, outer), x)[o] ==
              ValueOr0(Apply(inner, Low(inner, x)), o)
              + ValueOr0(Apply(outer, High(inner, outer, x)), o) * Pow2(BitsOf(inner.outs, o))
  {
    TimesWellFormed(inner, outer);
    LowHighCover(inner, outer, x);
    if Covers(InDims(Times(inner, outer).ins), x) {
      DirectSumAt(inner, outer, x, o);
    }
  }

  lemma DirectSumAt(inner: Layout, outer: Layout, x: Coord, o: Name)
    requires WellFormed(inner) && WellFormed(outer) && WellFormed(Times(inner, outer))
    requires o in Names(Times(inner, outer).outs) && Covers(InDims(Times(inner, outer).ins), x)
    requires Covers(InDims(inner.ins), Low(inner, x)) && Covers(InDims(outer.ins), High(inner, outer, x))
    ensures Apply(Times(inner, outer), x)[o] ==
            ValueOr0(Apply(inner, Low(inner, x)), o)
            + ValueOr0(Apply(outer, High(inner, outer, x)), o) * Pow2(BitsOf(inner.outs, o))
  {
    var l, j := Times(inner, outer), Index(Times(inner, outer).outs, o);
    var names := NameSeq(InDims(l.ins));
    ApplyAt(l, x, j);
    WellFormedHave(l, j);
    OutValueByNames(names, l.ins, x, j);
    forall i | 0 <= i < |names|
      ensures Contribution(l.ins, x, names[i], j) == BothParts(inner, outer, x, names[i], o)
    {
      TimesContribution(inner, outer, x, i, j);
    }
    PartsSplit(l.ins, inner, outer, x, names, o, j);
    TimesNames(inner, outer);
    SumOfParts(inner, outer, x, names, o);
  }

  ghost predicate Lists(names: seq<Name>, l: Layout) {
    forall d :: 0 <= d < |l.ins| ==> l.ins[d].name in names
  }

  lemma SumOfParts(inner: Layout, outer: Layout, x: Coord, names: seq<Name>, o: Name)
    requires WellFormed(inner) && WellFormed(outer) && DistinctNames(names) && Lists(names, inner) && Lists(names, outer)
    requires Covers(InDims(inner.ins), Low(inner, x)) && Covers(InDims(outer.ins), High(inner, outer, x))
    ensures AllParts(inner, outer, x, names, o) ==
            ValueOr0(Apply(inner, Low(inner, x)), o)
            + ValueOr0(Apply(outer, High(inner, outer, x)), o) * Pow2(BitsOf(inner.outs, o))
  {
    var low, high := Low(inner, x), High(inner, outer, x);
    ValueByParts(names, inner, low, o);
    ValueByParts(names, outer, high, o);
    ValueBound(inner, low, o);
    XorIsSum(ValueOr0(Apply(inner, low), o), ValueOr0(Apply(outer, high), o), BitsOf(inner.outs, o));
  }

  lemma TimesNames(inner: Layout, outer: Layout)
    requires WellFormed(inner) && WellFormed(outer)
    ensures var names := NameSeq(InDims(Times(inner, outer).ins));
            DistinctNames(names) && Lists(names, inner) && Lists(names, outer)
  {
    var dims := Merged(InDims(inner.ins), InDims(outer.ins));
    TimesDims(inner, outer);
    MergedDims(InDims(inner.ins), InDims(outer.ins));
    NamesCover(dims, inner);
    NamesCover(dims, outer);
  }

  lemma NamesCover(dims: seq<Dim>, part: Layout)
    requires Names(InDims(part.ins)) <= Names(dims)
    ensures Lists(NameSeq(dims), part)
  {
    forall d | 0 <= d < |part.ins| ensures part.ins[d].name in NameSeq(dims) {
      InNames(InDims(part.ins), d);
      var i :| 0 <= i < |dims| && dims[i].name == part.ins[d].name;
      assert NameSeq(dims)[i] == part.ins[d].name;
    }
  }

  lemma ValueBound(l: Layout, x: Coord, o: Name)
    requires WellFormed(l) && Covers(InDims(l.ins), x)
    ensures ValueOr0(Apply(l, x), o) < Pow2(BitsOf(l.outs, o))
  {
    if o in Names(l.outs) {
      ApplyInRange(l, x);
    }
  }

  // ---------- surjectivity ----------

  // The coordinate whose low bits are `a` and whose high bits are `b`.
  ghost function Join(dims: seq<Dim>, a: Coord, b: Coord, low: seq<Dim>): (x: Coord)
    ensures x.Keys == Names(dims)
  {
    map n | n in Names(dims) :: JoinAt(a, b, low, n)
  }

  lemma JoinParts(v: nat, w: nat, k: nat)
    requires v < Pow2(k)
    ensures ModPow2(v + w * Pow2(k), k) == v && DivPow2(v + w * Pow2(k), k) == w
  {
    DivModUnique(v + w * Pow2(k), Pow2(k), w, v);
  }

  lemma ValueInRange(dims: seq<Dim>, x: Coord, n: Name)
    requires Distinct(dims) && InRange(dims, x)
    ensures ValueOr0(x, n) < Pow2(BitsOf(dims, n))
  {
    if n in x {
      var i :| 0 <= i < |dims| && dims[i].name == n;
      BitsAt(dims, i);
    }
  }

  lemma JoinBound(v: nat, w: nat, k: nat, m: nat)
    requires v < Pow2(k) && w < Pow2(m)
    ensures v + w * Pow2(k) < Pow2(k + m)
  {
    Pow2Adds(k, m);
    MulAtLeast(Pow2(m), w + 1, Pow2(k));
  }

  lemma JoinInRange(a: seq<Dim>, b: seq<Dim>, x: Coord, y: Coord)
    requires Distinct(a) && Distinct(b) && InRange(a, x) && InRange(b, y)
    ensures InRange(Merged(a, b), Join(Merged(a, b), x, y, a))
  {
    var m, j := Merged(a, b), Join(Merged(a, b), x, y, a);
    forall i | 0 <= i < |m|
      ensures m[i].name in j && j[m[i].name] < Pow2(m[i].bits)
    {
      InNames(m, i);
      JoinInRangeAt(a, b, x, y, i);
    }
  }

  lemma JoinInRangeAt(a: seq<Dim>, b: seq<Dim>, x: Coord, y: Coord, i: nat)
    requires Distinct(a) && Distinct(b) && InRange(a, x) && InRange(b, y) && i < |Merged(a, b)|
    ensures var d := Merged(a, b)[i]; ValueOr0(x, d.name) + ValueOr0(y, d.name) * Pow2(BitsOf(a, d.name)) < Pow2(d.bits)
  {
    hide *;
    var n := Merged(a, b)[i].name;
    MergedAt(a, b, i);
    ValueInRange(a, x, n);
    ValueInRange(b, y, n);
    JoinBound(ValueOr0(x, n), ValueOr0(y, n), BitsOf(a, n), BitsOf(b, n));
  }

  // Splitting a joined coordinate gives the parts back.
  lemma SplitJoin(inner: Layout, outer: Layout, a: Coord, b: Coord)
    requires WellFormed(inner) && WellFormed(outer)
    requires InRange(InDims(inner.ins), a) && InRange(InDims(outer.ins), b)
    ensures var x := Join(Merged(InDims(inner.ins), InDims(outer.ins)), a, b, InDims(inner.ins));
            Low(inner, x) == a && High(inner, outer, x) == b
  {
    var dims := InDims(inner.ins);
    var x := Join(Merged(dims, InDims(outer.ins)), a, b, dims);
    hide ModPow2, DivPow2, Pow2, ValueOr0, Merged, Join, Names;
    forall n | n in Names(dims) ensures Low(inner, x)[n] == a[n] {
      SplitJoinAt(dims, InDims(outer.ins), a, b, n);
      ValueIn(a, n);
    }
    forall n | n in Names(InDims(outer.ins)) ensures High(inner, outer, x)[n] == b[n] {
      SplitJoinAt(dims, InDims(outer.ins), a, b, n);
      ValueIn(b, n);
    }
  }

  lemma ValueIn(x: Coord, n: Name)
    requires n in x
    ensures ValueOr0(x, n) == x[n]
  {
  }

  lemma SplitJoinAt(low: seq<Dim>, high: seq<Dim>, a: Coord, b: Coord, n: Name)
    requires Distinct(low) && Distinct(high) && InRange(low, a) && n in Names(low) + Names(high)
    ensures var v := ValueOr0(Join(Merged(low, high), a, b, low), n);
            ModPow2(v, BitsOf(low, n)) == ValueOr0(a, n) && DivPow2(v, BitsOf(low, n)) == ValueOr0(b, n)
  {
    hide *;
    JoinValue(low, high, a, b, n);
    ValueInRange(low, a, n);
    JoinParts(ValueOr0(a, n), ValueOr0(b, n), BitsOf(low, n));
  }

  lemma JoinValue(low: seq<Dim>, high: seq<Dim>, a: Coord, b: Coord, n: Name)
    requires n in Names(low) + Names(high)
    ensures ValueOr0(Join(Merged(low, high), a, b, low), n) == ValueOr0(a, n) + ValueOr0(b, n) * Pow2(BitsOf(low, n))
  {
    hide Names, Merged, BitsOf, Pow2;
    MergedHas(low, high, n);
  }

  lemma SplitInRange(inner: Layout, outer: Layout, x: Coord)
    requires WellFormed(inner) && WellFormed(outer) && InRange(Merged(InDims(inner.ins), InDims(outer.ins)), x)
    ensures InRange(InDims(inner.ins), Low(inner, x)) && InRange(InDims(outer.ins), High(inner, outer, x))
  {
    PartsInRange(InDims(inner.ins), InDims(outer.ins), x);
  }

  lemma HighInRangeAt(a: seq<Dim>, b: seq<Dim>, x: Coord, i: nat)
    requires Distinct(a) && Distinct(b) && InRange(Merged(a, b), x) && i < |b|
    ensures DivPow2(ValueOr0(x, b[i].name), BitsOf(a, b[i].name)) < Pow2(b[i].bits)
  {
    var m, n := Merged(a, b), b[i].name;
    InNames(b, i);
    BitsAt(b, i);
    MergedHas(a, b, n);
    var k := Index(m, n);
    MergedAt(a, b, k);
    DivPow2Small(x[n], BitsOf(a, n), b[i].bits);
  }

  // Out coordinates split the same way as in coordinates.
  lemma TimesReaches(inner: Layout, outer: Layout, y: Coord, z: Coord)
    requires WellFormed(inner) && WellFormed(outer) && WellFormed(Times(inner, outer))
    requires InRange(inner.outs, y) && InRange(outer.outs, z)
    ensures Reaches(Times(inner, outer), Join(Merged(inner.outs, outer.outs), y, z, inner.outs))
            <==> Reaches(inner, y) && Reaches(outer, z)
  {
    var l, t := Times(inner, outer), Join(Merged(inner.outs, outer.outs), y, z, inner.outs);
    TimesDims(inner, outer);
    if Reaches(inner, y) && Reaches(outer, z) {
      var a: Coord :| InRange(InDims(inner.ins), a) && Apply(inner, a) == y;
      var b: Coord :| InRange(InDims(outer.ins), b) && Apply(outer, b) == z;
      var x := Join(InDims(l.ins), a, b, InDims(inner.ins));
      JoinInRange(InDims(inner.ins), InDims(outer.ins), a, b);
      SplitJoin(inner, outer, a, b);
      TimesValue(inner, outer, x);
      assert Apply(l, x) == t;
    }
    if Reaches(l, t) {
      var x: Coord :| InRange(InDims(l.ins), x) && Apply(l, x) == t;
      SplitInRange(inner, outer, x);
      TimesValue(inner, outer, x);
      JoinInjective(inner.outs, outer.outs, Apply(inner, Low(inner, x)), Apply(outer, High(inner, outer, x)), y, z);
    }
  }

  // The image under the product is the join of the two images.
  lemma TimesValue(inner: Layout, outer: Layout, x: Coord)
    requires WellFormed(inner) && WellFormed(outer) && WellFormed(Times(inner, outer))
    requires Covers(InDims(Times(inner, outer).ins), x)
    requires InRange(InDims(inner.ins), Low(inner, x)) && InRange(InDims(outer.ins), High(inner, outer, x))
    ensures Apply(Times(inner, outer), x) ==
            Join(Merged(inner.outs, outer.outs), Apply(inner, Low(inner, x)), Apply(outer, High(inner, outer, x)), inner.outs)
    ensures InRange(inner.outs, Apply(inner, Low(inner, x))) && InRange(outer.outs, Apply(outer, High(inner, outer, x)))
  {
    hide Apply, Low, High, ValueOr0, Pow2;
    ApplyInRange(inner, Low(inner, x));
    ApplyInRange(outer, High(inner, outer, x));
    forall o | o in Names(Merged(inner.outs, outer.outs))
      ensures Apply(Times(inner, outer), x)[o] ==
              Join(Merged(inner.outs, outer.outs), Apply(inner, Low(inner, x)), Apply(outer, High(inner, outer, x)), inner.outs)[o]
    {
      DirectSumAt(inner, outer, x, o);
    }
  }

  lemma JoinInjective(a: seq<Dim>, b: seq<Dim>, y: Coord, z: Coord, y': Coord, z': Coord)
    requires Distinct(a) && Distinct(b) && InRange(a, y) && InRange(a, y') && InRange(b, z) && InRange(b, z')
    requires Join(Merged(a, b), y, z, a) == Join(Merged(a, b), y', z', a)
    ensures y == y' && z == z'
  {
    forall n | n in Names(a) ensures y[n] == y'[n] {
      SplitJoinAt(a, b, y, z, n);
      SplitJoinAt(a, b, y', z', n);
    }
    forall n | n in Names(b) ensures z[n] == z'[n] {
      SplitJoinAt(a, b, y, z, n);
      SplitJoinAt(a, b, y', z', n);
    }
  }

  lemma SurjectiveParts(inner: Layout, outer: Layout, t: Coord)
    requires WellFormed(inner) && WellFormed(outer) && WellFormed(Times(inner, outer))
    requires InRange(Times(inner, outer).outs, t) && Surjective(inner) && Surjective(outer)
    ensures Reaches(Times(inner, outer), t)
  {
    var a, b := inner.outs, outer.outs;
    var y, z := LowPart(a, t), HighPart(a, b, t);
    PartsInRange(a, b, t);
    assert Reaches(inner, y) && Reaches(outer, z);
    TimesReaches(inner, outer, y, z);
    JoinOfSplit(a, b, t);
  }

  lemma PartsInRange(a: seq<Dim>, b: seq<Dim>, t: Coord)
    requires Distinct(a) && Distinct(b) && InRange(Merged(a, b), t)
    ensures InRange(a, LowPart(a, t)) && InRange(b, HighPart(a, b, t))
  {
    forall i | 0 <= i < |a| ensures a[i].name in Names(a) && LowPart(a, t)[a[i].name] < Pow2(a[i].bits) {
      InNames(a, i);
      BitsAt(a, i);
    }
    forall i | 0 <= i < |b| ensures b[i].name in Names(b) && HighPart(a, b, t)[b[i].name] < Pow2(b[i].bits) {
      InNames(b, i);
      HighInRangeAt(a, b, t, i);
    }
  }

  lemma JoinOfSplit(a: seq<Dim>, b: seq<Dim>, t: Coord)
    requires Distinct(a) && Distinct(b) && InRange(Merged(a, b), t) && t.Keys == Names(Merged(a, b))
    ensures Join(Merged(a, b), LowPart(a, t), HighPart(a, b, t), a) == t
  {
    hide ModPow2, DivPow2, LowPart, HighPart, Pow2, BitsOf, ValueOr0;
    forall n | n in Names(Merged(a, b))
      ensures JoinAt(LowPart(a, t), HighPart(a, b, t), a, n) == t[n]
    {
      JoinOfSplitAt(a, b, t, n);
    }
  }

  ghost function JoinAt(y: Coord, z: Coord, low: seq<Dim>, n: Name): nat {
    ValueOr0(y, n) + ValueOr0(z, n) * Pow2(BitsOf(low, n))
  }

  lemma JoinOfSplitAt(a: seq<Dim>, b: seq<Dim>, t: Coord, n: Name)
    requires Distinct(a) && Distinct(b) && InRange(Merged(a, b), t) && n in Names(Merged(a, b)) && n in t
    ensures JoinAt(LowPart(a, t), HighPart(a, b, t), a, n) == t[n]
  {
    hide Pow2, LowPart, HighPart;
    MergedAt(a, b, Index(Merged(a, b), n));
    PartsAt(a, b, t, n);
    if n !in Names(b) {
      ModPow2Small(t[n], BitsOf(a, n));
    } else if n !in Names(a) {
      DivPow2Zero(t[n]);
    } else {
      ModDiv(t[n], BitsOf(a, n));
    }
  }

  lemma PartsAt(a: seq<Dim>, b: seq<Dim>, t: Coord, n: Name)
    requires n in t
    ensures ValueOr0(LowPart(a, t), n) == if n in Names(a) then ModPow2(t[n], BitsOf(a, n)) else 0
    ensures ValueOr0(HighPart(a, b, t), n) == if n in Names(b) then DivPow2(t[n], BitsOf(a, n)) else 0
  {
  }

  lemma ModPow2Small(v: nat, k: nat)
    requires v < Pow2(k)
    ensures ModPow2(v, k) == v
  {
    hide Pow2;
    DivModUnique(v, Pow2(k), 0, v);
  }

  lemma DivPow2Zero(v: nat)
    ensures DivPow2(v, 0) == v && Pow2(0) == 1
  {
  }

  lemma {:induction false} ZeroInRange(dims: seq<Dim>)
    ensures InRange(dims, map n | n in Names(dims) :: 0)
  {
    var x: Coord := map n | n in Names(dims) :: 0;
    forall i | 0 <= i < |dims| ensures dims[i].name in x && x[dims[i].name] < Pow2(dims[i].bits) {
      InNames(dims, i);
    }
  }

  /** A product is surjective exactly when both factors are; so requiring it of the product when
      both factors have it, as the source does, never fails. */
  lemma TimesSurjective(inner: Layout, outer: Layout)
    requires WellFormed(inner) && WellFormed(outer)
    ensures WellFormed(Times(inner, outer))
    ensures Surjective(Times(inner, outer)) <==> Surjective(inner) && Surjective(outer)
  {
    var l := Times(inner, outer);
    TimesWellFormed(inner, outer);
    if Surjective(inner) && Surjective(outer) {
      forall t: Coord | InRange(l.outs, t) ensures Reaches(l, t) {
        SurjectiveParts(inner, outer, t);
      }
    }
    if Surjective(l) {
      forall y: Coord | InRange(inner.outs, y) ensures Reaches(inner, y) {
        FactorReaches(inner, outer, y, map n | n in Names(outer.outs) :: 0);
      }
      forall z: Coord | InRange(outer.outs, z) ensures Reaches(outer, z) {
        FactorReaches(inner, outer, map n | n in Names(inner.outs) :: 0, z);
      }
    }
  }

  lemma FactorReaches(inner: Layout, outer: Layout, y: Coord, z: Coord)
    requires WellFormed(inner) && WellFormed(outer) && WellFormed(Times(inner, outer)) && Surjective(Times(inner, outer))
    requires InRange(inner.outs, y) || y == map n | n in Names(inner.outs) :: 0
    requires InRange(outer.outs, z) || z == map n | n in Names(outer.outs) :: 0
    ensures Reaches(inner, y) && Reaches(outer, z)
  {
    ZeroInRange(inner.outs);
    ZeroInRange(outer.outs);
    JoinInRange(inner.outs, outer.outs, y, z);
    assert Reaches(Times(inner, outer), Join(Merged(inner.outs, outer.outs), y, z, inner.outs));
    TimesReaches(inner, outer, y, z);
  }
}
