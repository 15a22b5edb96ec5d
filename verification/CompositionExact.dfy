/** Exactly for which outer layouts compose keeps its documented postcondition
(include/triton/Tools/LinearLayout.h:632-635): "surjective if and only if both are and the
sizes match". */
module CompositionExact {
  import opened F2Matrix
  import opened Words
  import opened Layout
  import opened LayoutMatrix
  import opened LayoutRank
  import opened Reshape
  import opened Quotient
  import opened DiagonalDims
  import opened Composition

  // The documented postcondition, for one inner layout.
  ghost predicate Promise(l: Layout, outer: Layout)
    requires Composable(l, outer)
  {
    ComposeWellFormed(l, outer);
    Surjective(Compose(l, outer)) <==> Surjective(l) && Surjective(outer) && SizesMatch(l, outer)
  }

  // ---------- a layout that picks one preimage per out bit ----------

  ghost predicate IsPreimage(outer: Layout, p: Coord, c: nat)
    requires WellFormed(outer)
  {
    && InRange(InDims(outer.ins), p)
    && Covers(outer.outs, Apply(outer, p)) && Flat(outer.outs, Apply(outer, p)) == Unit(Total(outer.outs), c)
  }

  lemma OnePreimage(outer: Layout, c: nat) returns (p: Coord)
    requires WellFormed(outer) && Surjective(outer) && c < Total(outer.outs)
    ensures IsPreimage(outer, p, c)
  {
    hide Apply, Flat;
    var u := Unit(Total(outer.outs), c);
    FlatUnflat(outer.outs, u);
    assert Reaches(outer, Unflat(outer.outs, u));
    p :| InRange(InDims(outer.ins), p) && Apply(outer, p) == Unflat(outer.outs, u);
  }

  lemma {:induction false} Preimages(outer: Layout, n: nat) returns (pre: seq<Coord>)
    requires WellFormed(outer) && Surjective(outer) && n <= Total(outer.outs)
    ensures |pre| == n && forall c :: 0 <= c < n ==> IsPreimage(outer, pre[c], c)
  {
    hide IsPreimage, Surjective;
    if n == 0 {
      pre := [];
    } else {
      pre := Preimages(outer, n - 1);
      var p := OnePreimage(outer, n - 1);
      pre := pre + [p];
    }
  }

  ghost function VectorOf(dims: seq<Dim>, p: Coord): (v: seq<nat>)
    requires InRange(dims, p)
    ensures |v| == |dims| && forall i :: 0 <= i < |v| ==> dims[i].name in p && v[i] == p[dims[i].name]
  {
    seq(|dims|, i requires 0 <= i < |dims| => p[dims[i].name])
  }

  ghost predicate AllInRange(outer: Layout, pre: seq<Coord>)
  {
    forall c :: 0 <= c < |pre| ==> InRange(InDims(outer.ins), pre[c])
  }

  ghost function Section(outer: Layout, pre: seq<Coord>): (l: Layout)
    requires AllInRange(outer, pre)
    ensures l.outs == InDims(outer.ins) && |l.ins| == 1 && |l.ins[0].bases| == |pre|
    ensures forall c :: 0 <= c < |pre| ==> l.ins[0].bases[c] == VectorOf(l.outs, pre[c])
  {
    Layout([InDim("b", seq(|pre|, c requires 0 <= c < |pre| => VectorOf(InDims(outer.ins), pre[c])))], InDims(outer.ins))
  }

  lemma SectionFits(outer: Layout, pre: seq<Coord>)
    requires WellFormed(outer) && AllInRange(outer, pre)
    ensures Composable(Section(outer, pre), outer) && SizesMatch(Section(outer, pre), outer)
    ensures InWidths(Section(outer, pre).ins, |Section(outer, pre).outs|) && InDims(Section(outer, pre).ins) == [Dim("b", |pre|)]
  {
    var l, dims := Section(outer, pre), InDims(outer.ins);
    forall d, c | 0 <= d < |l.ins| && 0 <= c < |l.ins[d].bases| ensures IsVector(l.outs, l.ins[d].bases[c]) {
    }
    assert forall d :: 0 <= d < |l.ins| ==> Vectors(l.outs, l.ins[d].bases);
    forall i | 0 <= i < |l.outs| ensures l.outs[i].name in Names(dims) && dims[Index(dims, l.outs[i].name)] == l.outs[i] {
      assert dims[i].name in Names(dims);
      assert Index(dims, dims[i].name) == i;
    }
    WellFormedWidths(l);
  }

  lemma SectionAt(outer: Layout, pre: seq<Coord>, c: nat, i: nat)
    requires WellFormed(outer) && AllInRange(outer, pre) && c < |pre| && i < |outer.ins|
    ensures var l := Section(outer, pre); var x := BitCoord(InDims(l.ins), 0, c);
            && WellFormed(l) && InRange(InDims(l.ins), x)
            && l.outs[i].name in Apply(l, x) && l.outs[i].name in pre[c]
            && Apply(l, x)[l.outs[i].name] == pre[c][l.outs[i].name]
  {
    hide Apply, BitCoord, Section, InRange;
    SectionFits(outer, pre);
    var l := Section(outer, pre);
    ApplyOfBit(l, 0, c, i);
    assert l.ins[0].bases[c] == VectorOf(l.outs, pre[c]);
  }

  lemma SameCoord(dims: seq<Dim>, x: Coord, y: Coord)
    requires x.Keys == Names(dims) == y.Keys
    requires forall i :: 0 <= i < |dims| ==> dims[i].name in x && dims[i].name in y && x[dims[i].name] == y[dims[i].name]
    ensures x == y
  {
    forall n | n in x.Keys ensures x[n] == y[n] {
      var i := Index(dims, n);
    }
  }

  // The section sends in bit c to the chosen preimage of out bit c.
  lemma SectionOfBit(outer: Layout, pre: seq<Coord>, c: nat)
    requires WellFormed(outer) && AllInRange(outer, pre) && c < |pre|
    ensures var l := Section(outer, pre); var x := BitCoord(InDims(l.ins), 0, c);
            && WellFormed(l) && InRange(InDims(l.ins), x) && Apply(l, x) == pre[c]
  {
    hide Apply, BitCoord, Section, WellFormed;
    SectionFits(outer, pre);
    SectionValid(outer, pre, c);
    var l := Section(outer, pre);
    var x := BitCoord(InDims(l.ins), 0, c);
    forall i | 0 <= i < |l.outs|
      ensures l.outs[i].name in Apply(l, x) && l.outs[i].name in pre[c] && Apply(l, x)[l.outs[i].name] == pre[c][l.outs[i].name]
    {
      SectionAt(outer, pre, c, i);
    }
    SameCoord(l.outs, Apply(l, x), pre[c]);
  }

  lemma SectionValid(outer: Layout, pre: seq<Coord>, c: nat)
    requires WellFormed(outer) && AllInRange(outer, pre) && c < |pre|
    ensures var l := Section(outer, pre); WellFormed(l) && InRange(InDims(l.ins), BitCoord(InDims(l.ins), 0, c))
    ensures pre[c].Keys == Names(Section(outer, pre).outs)
  {
    hide Section, BitCoord;
    SectionFits(outer, pre);
    BitCoordInRange(InDims(Section(outer, pre).ins), 0, c);
  }

  ghost predicate AllPreimages(outer: Layout, pre: seq<Coord>)
    requires WellFormed(outer)
  {
    |pre| == Total(outer.outs) && AllInRange(outer, pre) && forall c :: 0 <= c < |pre| ==> IsPreimage(outer, pre[c], c)
  }

  lemma OneDimFlat2(r: nat, x: Coord)
    requires "b" in x && Covers([Dim("b", r)], x)
    ensures Flat([Dim("b", r)], x) == ToBits(x["b"], r) && Total([Dim("b", r)]) == r
  {
    assert |[Dim("b", r)][1..]| == 0;
  }

  // Column c of the composition's matrix is the c-th unit vector.
  lemma ComposedColumn(outer: Layout, pre: seq<Coord>, c: nat)
    requires WellFormed(outer) && AllPreimages(outer, pre) && c < |pre|
    ensures Composable(Section(outer, pre), outer) && WellFormed(Compose(Section(outer, pre), outer))
    ensures Total(InDims(Compose(Section(outer, pre), outer).ins)) == |pre|
    ensures forall i :: 0 <= i < |pre| ==> MatrixOf(Compose(Section(outer, pre), outer))[i][c] == (i == c)
  {
    hide Apply, Flat, Compose, MatrixOf, ToBits, Dot;
    SectionFits(outer, pre);
    var l, r := Section(outer, pre), |pre|;
    ComposeWellFormed(l, outer);
    var comp, x := Compose(l, outer), BitCoord(InDims(l.ins), 0, c);
    assert InDims(comp.ins) == [Dim("b", r)];
    SectionOfBit(outer, pre, c);
    ComposeApplies(l, outer, x);
    ApplyIsMatVec(comp, x);
    OneDimFlat2(r, x);
    assert InDims(l.ins)[0].name == "b" && "b" in Names(InDims(l.ins));
    ToBitsPow2(c, r);
    MatVecUnit(MatrixOf(comp), r, c);
  }

  /** Through the section, `outer` becomes the identity on flattened coordinates. */
  lemma SectionInverts(outer: Layout, pre: seq<Coord>, x: Coord)
    requires WellFormed(outer) && AllPreimages(outer, pre)
    requires Composable(Section(outer, pre), outer) && WellFormed(Compose(Section(outer, pre), outer))
    requires InRange([Dim("b", |pre|)], x) && InDims(Compose(Section(outer, pre), outer).ins) == [Dim("b", |pre|)]
    ensures Covers(outer.outs, Apply(Compose(Section(outer, pre), outer), x))
    ensures Flat(outer.outs, Apply(Compose(Section(outer, pre), outer), x)) == Flat([Dim("b", |pre|)], x)
  {
    hide Apply, Flat, Compose, MatrixOf, ToBits, Dot;
    var comp, r := Compose(Section(outer, pre), outer), |pre|;
    var m := MatrixOf(comp);
    ApplyIsMatVec(comp, x);
    ApplyInRange(comp, x);
    assert [Dim("b", r)][0].name in x;
    OneDimFlat2(r, x);
    var b := ToBits(x["b"], r);
    forall i | 0 <= i < r ensures MatVec(m, b)[i] == b[i] {
      forall c | 0 <= c < r ensures m[i][c] == (i == c) {
        ComposedColumn(outer, pre, c);
      }
      assert m[i] == Unit(r, i);
      DotUnit(b, i);
    }
    assert MatVec(m, b) == b;
  }

  lemma FlatSameBits(x: Coord, r: nat, y: Coord)
    requires InRange([Dim("b", r)], x) && InRange([Dim("b", r)], y) && Flat([Dim("b", r)], x) == Flat([Dim("b", r)], y)
    ensures x == y
  {
    FlatInjective([Dim("b", r)], x, y);
  }

  // Every out coordinate is reached, by the in coordinate with the same bits.
  lemma SectionComposesOnto(outer: Layout, pre: seq<Coord>)
    requires WellFormed(outer) && AllPreimages(outer, pre)
    ensures Composable(Section(outer, pre), outer) && WellFormed(Compose(Section(outer, pre), outer))
    ensures Surjective(Compose(Section(outer, pre), outer))
  {
    hide Apply, Flat, Compose, Section, AllPreimages, Total;
    PreimagesInRange(outer, pre);
    SectionFits(outer, pre);
    ComposeWellFormed(Section(outer, pre), outer);
    var comp, dims := Compose(Section(outer, pre), outer), [Dim("b", |pre|)];
    TotalOfOne(|pre|);
    forall z: Coord | InRange(comp.outs, z) ensures Reaches(comp, z) {
      var x := Unflat(dims, Flat(outer.outs, z));
      FlatUnflat(dims, Flat(outer.outs, z));
      SectionInverts(outer, pre, x);
      ApplyInRange(comp, x);
      FlatInjective(outer.outs, Apply(comp, x), z);
    }
  }

  lemma PreimagesInRange(outer: Layout, pre: seq<Coord>)
    requires WellFormed(outer) && AllPreimages(outer, pre)
    ensures AllInRange(outer, pre) && |pre| == Total(outer.outs)
  {
  }

  lemma TotalOfOne(r: nat)
    ensures Total([Dim("b", r)]) == r
  {
    assert |[Dim("b", r)][1..]| == 0;
  }

  // If the section is onto, outer is one-to-one: it can be undone bit by bit.
  lemma OntoSectionIsOneToOne(outer: Layout, pre: seq<Coord>)
    requires WellFormed(outer) && AllPreimages(outer, pre) && AllInRange(outer, pre)
    requires Composable(Section(outer, pre), outer) && Surjective(Section(outer, pre))
    ensures OneToOne(outer)
  {
    hide Apply, Flat, Compose, Section, AllPreimages;
    forall y: Coord, z: Coord | InRange(InDims(outer.ins), y) && InRange(InDims(outer.ins), z) && SameImage(outer, y, z)
      ensures y == z
    {
      SectionSeparates(outer, pre, y, z);
    }
  }

  lemma SectionSeparates(outer: Layout, pre: seq<Coord>, y: Coord, z: Coord)
    requires WellFormed(outer) && AllPreimages(outer, pre) && AllInRange(outer, pre)
    requires Composable(Section(outer, pre), outer) && Surjective(Section(outer, pre))
    requires InRange(InDims(outer.ins), y) && InRange(InDims(outer.ins), z) && SameImage(outer, y, z)
    ensures y == z
  {
    hide Apply, Flat, Compose, Section, AllPreimages, InRange;
    SectionFits(outer, pre);
    var l := Section(outer, pre);
    ComposeWellFormed(l, outer);
    assert Reaches(l, y) && Reaches(l, z);
    var u := ReachedBy(l, y);
    var v := ReachedBy(l, z);
    ComposeApplies(l, outer, u);
    ComposeApplies(l, outer, v);
    SectionInverts(outer, pre, u);
    SectionInverts(outer, pre, v);
    FlatSameBits(u, |pre|, v);
  }

  lemma ReachedBy(l: Layout, y: Coord) returns (u: Coord)
    requires WellFormed(l) && Reaches(l, y)
    ensures InRange(InDims(l.ins), u) && Covers(InDims(l.ins), u) && Apply(l, u) == y
  {
    u :| InRange(InDims(l.ins), u) && Apply(l, u) == y;
  }

  /** The documented postcondition holds for every inner layout exactly if `outer` is one-to-one or
      is not surjective. */
  lemma PromiseIff(outer: Layout)
    requires WellFormed(outer)
    ensures (forall l: Layout :: Composable(l, outer) ==> Promise(l, outer)) <==> OneToOne(outer) || !Surjective(outer)
  {
    hide OneToOne, Surjective, Composable, Compose;
    if OneToOne(outer) || !Surjective(outer) {
      forall l: Layout | Composable(l, outer) ensures Promise(l, outer) {
        ComposeSurjective(l, outer);
        if OneToOne(outer) {
          ComposeSurjectiveIff(l, outer);
        }
      }
    }
    if Surjective(outer) && !OneToOne(outer) {
      var l := BrokenPromise(outer);
    }
  }

  lemma BrokenPromise(outer: Layout) returns (l: Layout)
    requires WellFormed(outer) && Surjective(outer) && !OneToOne(outer)
    ensures Composable(l, outer) && !Promise(l, outer)
  {
    hide OneToOne, Surjective, Section, Compose, IsPreimage;
    var pre := Preimages(outer, Total(outer.outs));
    PreimageRanges(outer, pre);
    l := Section(outer, pre);
    SectionComposesOnto(outer, pre);
    if Surjective(l) {
      OntoSectionIsOneToOne(outer, pre);
    }
  }

  lemma PreimageRanges(outer: Layout, pre: seq<Coord>)
    requires WellFormed(outer) && |pre| == Total(outer.outs) && forall c :: 0 <= c < |pre| ==> IsPreimage(outer, pre[c], c)
    ensures AllInRange(outer, pre) && AllPreimages(outer, pre)
  {
    hide Apply, Flat;
    forall c | 0 <= c < |pre| ensures InRange(InDims(outer.ins), pre[c]) {
      assert IsPreimage(outer, pre[c], c);
    }
  }
}
