/** Classifying a layout conversion (lib/Analysis/Utility.cpp:643-681). */
module ConvertLayout {
  import opened Words
  import opened Layout
  import opened Reshape
  import opened ComposeSpec
  import opened InvertAndCompose
  import opened Quotient
  import opened DiagonalDims

  const BLOCK: Name := "block"
  const WARP: Name := "warp"
  const LANE: Name := "lane"
  const REGISTER: Name := "register"

  const HARDWARE: set<Name> := {REGISTER, LANE, WARP, BLOCK}

  // Both layouts map hardware positions to elements of the same tensor.
  ghost predicate Convertible(dst: Layout, src: Layout) {
    && Callable(dst, src)
    && Names(InDims(dst.ins)) == HARDWARE && Names(InDims(src.ins)) == HARDWARE
  }

  ghost predicate SameSize(l: Layout, n: Name) {
    n in Names(InDims(l.ins)) && n in Names(l.outs) && Bits1(InDims(l.ins), n) == Bits1(l.outs, n)
  }

  // Dimensions that come from `full` have the sizes they have there.
  lemma SizesCarry(full: Layout, rest: Layout, dropped: set<Name>, n: Name)
    requires Reduces(full, rest, dropped) && n in Names(full.outs) && n !in dropped
    ensures SameSize(rest, n) <==> SameSize(full, n)
  {
    hide ReducesAt;
    var i, j := Index(InDims(rest.ins), n), Index(rest.outs, n);
    SizeOf(InDims(full.ins), InDims(rest.ins)[i]);
    SizeOf(full.outs, rest.outs[j]);
  }

  lemma SizeOf(dims: seq<Dim>, d: Dim)
    requires Distinct(dims) && d in dims
    ensures d.name in Names(dims) && Bits1(dims, d.name) == d.bits
  {
    var k :| 0 <= k < |dims| && dims[k] == d;
    assert d.name in Names(dims);
    assert Index(dims, d.name) == k;
  }

  /** `full` copies the dimensions in `dropped` and computes the others as `rest` does. */
  ghost predicate Reduces(full: Layout, rest: Layout, dropped: set<Name>) {
    && WellFormed(full) && WellFormed(rest) && InWidths(rest.ins, |rest.outs|)
    && Names(InDims(full.ins)) == Names(full.outs)
    && Names(rest.outs) == Names(full.outs) - dropped && Names(InDims(rest.ins)) == Names(full.outs) - dropped
    && (forall i :: 0 <= i < |rest.ins| ==> InDims(rest.ins)[i] in InDims(full.ins))
    && (forall i :: 0 <= i < |rest.outs| ==> rest.outs[i] in full.outs)
    && (forall n :: n in dropped && n in Names(full.outs) ==> SameSize(full, n))
    && forall x: Coord :: InRange(InDims(full.ins), x) ==> ReducesAt(full, rest, dropped, x)
  }

  ghost predicate ReducesAt(full: Layout, rest: Layout, dropped: set<Name>, x: Coord)
    requires WellFormed(full) && WellFormed(rest) && Covers(InDims(full.ins), x)
  {
    && (forall n :: n in Names(full.outs) && n in dropped ==> n in x && Apply(full, x)[n] == x[n])
    && Covers(InDims(rest.ins), x)
    && forall n :: n in Names(full.outs) && n !in dropped ==> n in Names(rest.outs) && Apply(full, x)[n] == Apply(rest, x)[n]
  }

  lemma TrivialSameSize(l: Layout, n: Name)
    requires WellFormed(l) && InWidths(l.ins, |l.outs|) && n in Names(InDims(l.ins)) && n in Names(l.outs) && IsTrivialOver(l, {n})
    ensures SameSize(l, n)
  {
  }

  lemma ReduceStep(full: Layout, rest: Layout, dropped: set<Name>, n: Name)
    requires Reduces(full, rest, dropped) && n in Names(full.outs) && n !in dropped
    requires IsTrivialOver(rest, {n})
    ensures Reduces(full, Remaining(rest, {n}), dropped + {n})
  {
    hide IsTrivialOver, ReducesAt, SameSize, Apply, WellFormed, Names;
    var next := Remaining(rest, {n});
    RemainingNames(rest, n);
    SublayoutWellFormed(rest, Names(InDims(rest.ins)) - {n}, Names(rest.outs) - {n});
    WellFormedWidths(next);
    FilterInsDims(rest.ins, Names(InDims(rest.ins)) - {n});
    TrivialSameSize(rest, n);
    SizesCarry(full, rest, dropped, n);
    forall i | 0 <= i < |next.outs| ensures next.outs[i] in full.outs {
      assert next.outs[i] in rest.outs;
      var k :| 0 <= k < |rest.outs| && rest.outs[k] == next.outs[i];
    }
    forall x: Coord | InRange(InDims(full.ins), x)
      ensures ReducesAt(full, next, dropped + {n}, x)
    {
      ReduceStepAt(full, rest, dropped, n, x);
    }
  }

  lemma ReduceStepAt(full: Layout, rest: Layout, dropped: set<Name>, n: Name, x: Coord)
    requires Reduces(full, rest, dropped) && n in Names(full.outs) && n !in dropped
    requires IsTrivialOver(rest, {n}) && InRange(InDims(full.ins), x)
    requires WellFormed(Remaining(rest, {n})) && Names(Remaining(rest, {n}).outs) == Names(rest.outs) - {n}
    ensures ReducesAt(full, Remaining(rest, {n}), dropped + {n}, x)
  {
    hide *;
    ReducesHere(full, rest, dropped, x);
    RestBounded(full, rest, x);
    TrivialOverOne(rest, n, x);
    ReducesMore(full, rest, Remaining(rest, {n}), dropped, n, x);
  }

  lemma ReducesHere(full: Layout, rest: Layout, dropped: set<Name>, x: Coord)
    requires Reduces(full, rest, dropped) && InRange(InDims(full.ins), x)
    ensures WellFormed(full) && WellFormed(rest) && InWidths(rest.ins, |rest.outs|)
    ensures Names(InDims(rest.ins)) == Names(rest.outs) == Names(full.outs) - dropped
    ensures forall i :: 0 <= i < |rest.ins| ==> InDims(rest.ins)[i] in InDims(full.ins)
    ensures Covers(InDims(full.ins), x) && ReducesAt(full, rest, dropped, x) && Covers(InDims(rest.ins), x)
  {
    hide WellFormed, InWidths, Names, Apply;
  }

  // Once `rest` copies n, what is left of it need not compute n.
  lemma ReducesMore(full: Layout, rest: Layout, next: Layout, dropped: set<Name>, n: Name, x: Coord)
    requires WellFormed(full) && WellFormed(rest) && WellFormed(next) && Covers(InDims(full.ins), x) && Covers(InDims(next.ins), x)
    requires ReducesAt(full, rest, dropped, x) && n in Names(full.outs) && n !in dropped && Names(next.outs) == Names(rest.outs) - {n}
    requires n in x && n in Names(rest.outs) && Covers(InDims(rest.ins), x) && Apply(rest, x)[n] == x[n]
    requires forall o :: o in Names(rest.outs) && o != n ==> o in Apply(next, x) && Apply(rest, x)[o] == Apply(next, x)[o]
    ensures ReducesAt(full, next, dropped + {n}, x)
  {
    hide WellFormed, Covers, Names, Apply;
  }

  lemma RestBounded(full: Layout, rest: Layout, x: Coord)
    requires InRange(InDims(full.ins), x) && forall i :: 0 <= i < |rest.ins| ==> InDims(rest.ins)[i] in InDims(full.ins)
    ensures Bounded(InDims(rest.ins), x)
  {
    hide Pow2, Names;
    forall i | 0 <= i < |rest.ins|
      ensures InDims(rest.ins)[i].name in x && x[InDims(rest.ins)[i].name] < Pow2(InDims(rest.ins)[i].bits)
    {
      var dims := InDims(full.ins);
      assert InDims(rest.ins)[i] in dims;
      var k :| 0 <= k < |dims| && dims[k] == InDims(rest.ins)[i];
    }
  }

  // Drops one dimension if the layout left so far copies it.
  method DropDim(comp: Layout, rest: Layout, ghost dropped: set<Name>, n: Name) returns (ok: bool, next: Layout)
    requires Reduces(comp, rest, dropped) && n in Names(comp.outs) && n !in dropped
    ensures ok ==> Reduces(comp, next, dropped + {n}) && next == Remaining(rest, {n})
    ensures !ok ==> next == rest
    ensures ok <==> IsTrivialOver(rest, {n})
  {
    hide Names, WellFormed, ReducesAt;
    var q := QuotientOf(rest, {n});
    if q == NoLayout {
      return false, rest;
    }
    ReduceStep(comp, rest, dropped, n);
    return true, q.layout;
  }

  // The conversion leaves lane, warp and block alone, and the new register depends on the register only.
  ghost predicate OnlyMovesRegisters(comp: Layout)
    requires WellFormed(comp) && Names(InDims(comp.ins)) == HARDWARE && Names(comp.outs) == HARDWARE
  {
    && (forall x: Coord, n: Name :: InRange(InDims(comp.ins), x) && n in HARDWARE && n != REGISTER ==> Copies(comp, x, n))
    && forall x: Coord, y: Coord :: InRange(InDims(comp.ins), x) && InRange(InDims(comp.ins), y) ==> SameRegister(comp, x, y)
  }

  ghost predicate Copies(comp: Layout, x: Coord, n: Name)
    requires WellFormed(comp) && Covers(InDims(comp.ins), x)
  {
    n in x && n in Apply(comp, x) && Apply(comp, x)[n] == x[n]
  }

  ghost predicate SameRegister(comp: Layout, x: Coord, y: Coord)
    requires WellFormed(comp) && Covers(InDims(comp.ins), x) && Covers(InDims(comp.ins), y)
  {
    REGISTER in x && REGISTER in y && REGISTER in Names(comp.outs) &&
    (x[REGISTER] == y[REGISTER] ==> Apply(comp, x)[REGISTER] == Apply(comp, y)[REGISTER])
  }

  // Lane, warp and block have the same sizes on both sides.
  ghost predicate SizesAgree(comp: Layout) {
    forall n :: n in HARDWARE && n != REGISTER ==> SameSize(comp, n)
  }

  lemma FixedAtBit(comp: Layout, n: Name, d: nat, i: nat, j: nat)
    requires WellFormed(comp) && InWidths(comp.ins, |comp.outs|) && Names(InDims(comp.ins)) == HARDWARE && Names(comp.outs) == HARDWARE
    requires OnlyMovesRegisters(comp) && n in HARDWARE && n != REGISTER
    requires d < |comp.ins| && i < |comp.ins[d].bases| && j < |comp.outs|
    ensures EntryOk(comp, n, d, i, j)
  {
    hide Apply;
    var dims := InDims(comp.ins);
    var x, z := BitCoord(dims, d, i), ZeroCoord(dims);
    var m := comp.outs[j].name;
    ApplyOfBit(comp, d, i, j);
    assert m in Names(comp.outs) && dims[d].name in Names(dims);
    if m != REGISTER {
      assert Copies(comp, x, m);
    } else {
      assert SameRegister(comp, x, z);
    }
  }

  lemma FixedIsDiagonal(comp: Layout, n: Name)
    requires WellFormed(comp) && InWidths(comp.ins, |comp.outs|) && Names(InDims(comp.ins)) == HARDWARE && Names(comp.outs) == HARDWARE
    requires OnlyMovesRegisters(comp) && n in HARDWARE && n != REGISTER
    ensures Diagonal(comp, n)
  {
    forall d, i, j | 0 <= d < |comp.ins| && 0 <= i < |comp.ins[d].bases| && 0 <= j < |comp.outs| ensures EntryOk(comp, n, d, i, j) {
      FixedAtBit(comp, n, d, i, j);
    }
  }

  /** The dimension has one size on both sides, goes to itself unchanged, and nothing else touches it. */
  ghost predicate Separable(comp: Layout, n: Name) {
    InWidths(comp.ins, |comp.outs|) && Diagonal(comp, n) && SameSize(comp, n)
  }

  // What was divided off was separable, and what is left is separable in what the conversion is.
  ghost predicate Carries(comp: Layout, rest: Layout, dropped: set<Name>) {
    && (forall n :: n in dropped ==> Separable(comp, n))
    && forall n :: n in HARDWARE && n !in dropped ==> (Separable(rest, n) <==> Separable(comp, n))
  }

  lemma StartsCarrying(comp: Layout)
    requires WellFormed(comp) && Names(InDims(comp.ins)) == HARDWARE && Names(comp.outs) == HARDWARE
    ensures Carries(comp, comp, {}) && Reduces(comp, comp, {})
  {
    WellFormedWidths(comp);
    forall x: Coord | InRange(InDims(comp.ins), x) ensures ReducesAt(comp, comp, {}, x) {
    }
  }

  /** `quotient` drops a dimension exactly if the conversion is separable in it. */
  lemma DropIff(comp: Layout, rest: Layout, dropped: set<Name>, n: Name)
    requires Names(comp.outs) == HARDWARE && Reduces(comp, rest, dropped) && Carries(comp, rest, dropped)
    requires n in HARDWARE && n !in dropped
    ensures TrivialOverDefined(rest, {n}) && (IsTrivialOver(rest, {n}) <==> Separable(comp, n))
  {
    hide ReducesAt, Diagonal, IsTrivialOver;
    TrivialIff(rest, n);
  }

  /** In particular it drops lane, warp and block whenever the conversion only moves registers and
      the sizes agree. */
  lemma DropSucceeds(comp: Layout, rest: Layout, dropped: set<Name>, n: Name)
    requires WellFormed(comp) && Names(InDims(comp.ins)) == HARDWARE && Names(comp.outs) == HARDWARE
    requires Reduces(comp, rest, dropped) && Carries(comp, rest, dropped) && n in HARDWARE && n !in dropped
    requires OnlyMovesRegisters(comp) && SizesAgree(comp) && n != REGISTER
    ensures IsTrivialOver(rest, {n})
  {
    hide OnlyMovesRegisters, Reduces, Carries, Diagonal, IsTrivialOver;
    WellFormedWidths(comp);
    FixedIsDiagonal(comp, n);
    DropIff(comp, rest, dropped, n);
  }

  lemma SeparableCarries(comp: Layout, rest: Layout, dropped: set<Name>, n: Name, m: Name)
    requires Names(comp.outs) == HARDWARE && Reduces(comp, rest, dropped) && Reduces(comp, Remaining(rest, {n}), dropped + {n})
    requires Separable(rest, n) && m in HARDWARE && m !in dropped && m != n
    ensures Separable(Remaining(rest, {n}), m) <==> Separable(rest, m)
  {
    hide ReducesAt, Diagonal, SameSize;
    RemainsDiagonalIff(rest, n, m);
    SizesCarry(comp, rest, dropped, m);
    SizesCarry(comp, Remaining(rest, {n}), dropped + {n}, m);
  }

  lemma CarriesOn(comp: Layout, rest: Layout, dropped: set<Name>, n: Name)
    requires Names(comp.outs) == HARDWARE && Reduces(comp, rest, dropped) && Reduces(comp, Remaining(rest, {n}), dropped + {n})
    requires Carries(comp, rest, dropped) && n in HARDWARE && n !in dropped && Separable(comp, n)
    ensures Carries(comp, Remaining(rest, {n}), dropped + {n})
  {
    hide Reduces, Separable, Remaining, WellFormed, InWidths, Names;
    ReducesSays(comp, rest, dropped);
    assert Separable(rest, n);
    forall m | m in HARDWARE && m !in dropped + {n} ensures Separable(Remaining(rest, {n}), m) <==> Separable(comp, m) {
      SeparableCarries(comp, rest, dropped, n, m);
    }
  }

  lemma NamesDiffer()
    ensures BLOCK != WARP && BLOCK != LANE && BLOCK != REGISTER && WARP != LANE && WARP != REGISTER && LANE != REGISTER
  {
    assert BLOCK[0] == 'b' && WARP[0] == 'w' && LANE[0] == 'l' && REGISTER[0] == 'r';
  }

  // The source's list of dimensions to divide off.
  const ORDER: seq<Name> := [BLOCK, WARP, LANE, REGISTER]

  ghost predicate Stuck(rest: Layout, n: Name) {
    InWidths(rest.ins, |rest.outs|) && TrivialOverDefined(rest, {n}) && !IsTrivialOver(rest, {n})
  }

  // What has been divided off when `rest` is left.
  ghost function Dropped(rest: Layout): set<Name> { HARDWARE - Names(rest.outs) }

  // The first k dimensions have been divided off, and the next one cannot be.
  ghost predicate StopsAt(rest: Layout, k: nat) {
    && k <= |ORDER|
    && (forall n :: n in Dropped(rest) <==> n in ORDER[..k])
    && (k < |ORDER| ==> Stuck(rest, ORDER[k]))
  }

  lemma DroppedIs(comp: Layout, rest: Layout, dropped: set<Name>)
    requires Reduces(comp, rest, dropped) && Names(comp.outs) == HARDWARE && dropped <= HARDWARE
    ensures Dropped(rest) == dropped
  {
    hide ReducesAt;
  }

  // Dimension a is listed before dimension b.
  ghost predicate Before(dims: seq<Dim>, a: Name, b: Name) {
    exists i, j :: 0 <= i < j < |dims| && dims[i].name == a && dims[j].name == b
  }

  // The dimensions of `part` are listed in the order that `whole` has them in.
  ghost predicate InOrder(part: seq<Dim>, whole: seq<Dim>) {
    forall i, j :: 0 <= i < j < |part| ==> Before(whole, part[i].name, part[j].name)
  }

  lemma InOrderTail(dims: seq<Dim>, whole: seq<Dim>)
    requires InOrder(dims, whole) && |dims| > 0
    ensures InOrder(dims[1..], whole) && forall d :: d in dims[1..] ==> Before(whole, dims[0].name, d.name)
  {
    hide Before;
    assert forall i :: 0 <= i < |dims| - 1 ==> dims[1..][i] == dims[i + 1];
  }

  lemma InOrderCons(d: Dim, rest: seq<Dim>, whole: seq<Dim>)
    requires InOrder(rest, whole) && forall i :: 0 <= i < |rest| ==> Before(whole, d.name, rest[i].name)
    ensures InOrder([d] + rest, whole) && InOrder([] + rest, whole)
  {
    hide Before;
    assert [] + rest == rest;
  }

  lemma {:induction false} FilterInOrder(dims: seq<Dim>, names: set<Name>, whole: seq<Dim>)
    requires InOrder(dims, whole)
    ensures InOrder(FilterDims(dims, names), whole)
  {
    hide InOrder, Before;
    if |dims| > 0 {
      InOrderTail(dims, whole);
      FilterInOrder(dims[1..], names, whole);
      InOrderCons(dims[0], FilterDims(dims[1..], names), whole);
    } else {
      assert FilterDims(dims, names) == dims;
    }
  }

  // One attempt of minimalCvtLayout.
  method TryDrop(comp: Layout, rest0: Layout, ghost dropped0: set<Name>, n: Name) returns (ok: bool, rest: Layout, ghost dropped: set<Name>)
    requires WellFormed(comp) && Names(InDims(comp.ins)) == HARDWARE && Names(comp.outs) == HARDWARE
    requires Reduces(comp, rest0, dropped0) && Carries(comp, rest0, dropped0) && n in HARDWARE && n !in dropped0
    ensures Reduces(comp, rest, dropped) && Carries(comp, rest, dropped)
    ensures dropped == if ok then dropped0 + {n} else dropped0
    ensures ok <==> Separable(comp, n)
    ensures !ok ==> Stuck(rest, n)
    ensures InOrder(rest0.outs, comp.outs) ==> InOrder(rest.outs, comp.outs)
  {
    hide Reduces, Carries, Separable, WellFormed, Names, InDims, IsTrivialOver, InOrder;
    ReducesSays(comp, rest0, dropped0);
    if InOrder(rest0.outs, comp.outs) {
      FilterInOrder(rest0.outs, Names(rest0.outs) - {n}, comp.outs);
    }
    DropIff(comp, rest0, dropped0, n);
    ok, rest := DropDim(comp, rest0, dropped0, n);
    if ok {
      CarriesOn(comp, rest0, dropped0, n);
    }
    dropped := if ok then dropped0 + {n} else dropped0;
  }

  lemma ReducesSays(full: Layout, rest: Layout, dropped: set<Name>)
    requires Reduces(full, rest, dropped)
    ensures WellFormed(full) && WellFormed(rest) && InWidths(rest.ins, |rest.outs|)
  {
    hide ReducesAt;
  }

  /** `minimalCvtLayout`: drops block, warp, lane and register, in this order, as long as the
      conversion is separable in the dimension. */
  method MinimalCvtLayout(comp: Layout) returns (rest: Layout)
    requires WellFormed(comp) && Names(InDims(comp.ins)) == HARDWARE && Names(comp.outs) == HARDWARE
    ensures Reduces(comp, rest, Dropped(rest))
    ensures exists k :: StopsAt(rest, k)
    ensures "block" in Dropped(rest) <==> Separable(comp, "block")
    ensures "warp" in Dropped(rest) <==> Separable(comp, "block") && Separable(comp, "warp")
    ensures "lane" in Dropped(rest) <==> Separable(comp, "block") && Separable(comp, "warp") && Separable(comp, "lane")
    ensures "register" in Dropped(rest) <==>
              Separable(comp, "block") && Separable(comp, "warp") && Separable(comp, "lane") && Separable(comp, "register")
    ensures OnlyMovesRegisters(comp) && SizesAgree(comp) ==> {BLOCK, WARP, LANE} <= Dropped(rest)
    ensures InOrder(rest.outs, comp.outs)
  {
    OwnOrder(comp.outs);
    hide InOrder, Reduces, Carries, Separable, OnlyMovesRegisters, SizesAgree, WellFormed, Names, InDims, Stuck, Dropped;
    NamesDiffer();
    StartsCarrying(comp);
    ghost var dropped: set<Name> := {};
    rest := comp;
    ghost var k := |ORDER|;
    for i := 0 to |ORDER|
      invariant Reduces(comp, rest, dropped) && Carries(comp, rest, dropped) && InOrder(rest.outs, comp.outs)
      invariant k == |ORDER| && forall n :: n in dropped <==> n in ORDER[..i]
      invariant forall j :: 0 <= j < i ==> Separable(comp, ORDER[j])
    {
      assert ORDER[i] !in ORDER[..i] by { Apart(i); }
      assert ORDER[..i + 1] == ORDER[..i] + [ORDER[i]];
      var ok;
      ok, rest, dropped := TryDrop(comp, rest, dropped, ORDER[i]);
      if !ok {
        k := i;
        break;
      }
    }
    FirstOnes(comp, k, dropped);
    DroppedIs(comp, rest, dropped);
    assert StopsAt(rest, k);
    if OnlyMovesRegisters(comp) && SizesAgree(comp) {
      MovesAreSeparable(comp);
    }
  }

  lemma OwnOrder(dims: seq<Dim>)
    ensures InOrder(dims, dims)
  {
  }

  // Which dimensions the first k are.
  lemma FirstOnes(comp: Layout, k: nat, dropped: set<Name>)
    requires k <= |ORDER| && forall n :: n in dropped <==> n in ORDER[..k]
    requires (forall j :: 0 <= j < k ==> Separable(comp, ORDER[j])) && (k < |ORDER| ==> !Separable(comp, ORDER[k]))
    ensures dropped <= HARDWARE
    ensures "block" in dropped <==> Separable(comp, "block")
    ensures "warp" in dropped <==> Separable(comp, "block") && Separable(comp, "warp")
    ensures "lane" in dropped <==> Separable(comp, "block") && Separable(comp, "warp") && Separable(comp, "lane")
    ensures "register" in dropped <==>
              Separable(comp, "block") && Separable(comp, "warp") && Separable(comp, "lane") && Separable(comp, "register")
  {
    hide Separable;
    NamesDiffer();
    assert ORDER[0] == "block" && ORDER[1] == "warp" && ORDER[2] == "lane" && ORDER[3] == "register";
    assert forall n :: n in dropped <==> exists j :: 0 <= j < k && ORDER[j] == n;
  }

  lemma MovesAreSeparable(comp: Layout)
    requires WellFormed(comp) && Names(InDims(comp.ins)) == HARDWARE && Names(comp.outs) == HARDWARE
    requires OnlyMovesRegisters(comp) && SizesAgree(comp)
    ensures Separable(comp, BLOCK) && Separable(comp, WARP) && Separable(comp, LANE)
  {
    hide OnlyMovesRegisters, Diagonal, SameSize;
    NamesDiffer();
    WellFormedWidths(comp);
    FixedIsDiagonal(comp, BLOCK);
    FixedIsDiagonal(comp, WARP);
    FixedIsDiagonal(comp, LANE);
  }

  lemma Apart(i: nat)
    requires i < |ORDER|
    ensures ORDER[i] !in ORDER[..i]
  {
    NamesDiffer();
  }

  datatype Answer = FatalError | Yes | No

  /** `cvtReordersRegisters` says yes exactly if every destination position reads its element from a
      source position in the same lane, warp and block, chosen by the register alone, and lanes,
      warps and blocks are as many on both sides. */
  method CvtReordersRegisters(dst: Layout, src: Layout) returns (r: Answer, comp: Layout)
    requires Convertible(dst, src)
    ensures r.FatalError? <==> !LeadingBasesIndependent(dst, src)
    ensures !r.FatalError? ==>
              && WellFormed(comp) && InDims(comp.ins) == InDims(dst.ins) && comp.outs == InDims(src.ins)
              && (Correct(dst, src, comp) <==> Aligned(dst, src))
    ensures r.Yes? <==> !r.FatalError? && OnlyMovesRegisters(comp) && SizesAgree(comp)
  {
    var c := InvertAndCompose.InvertAndCompose(dst, src);
    if c.Fatal? {
      return FatalError, dst;
    }
    comp := c.layout;
    var rest := MinimalCvtLayout(comp);
    ghost var dropped := Dropped(rest);
    if {BLOCK, WARP, LANE} <= dropped {
      OnlyRegisterLeft(comp, rest, dropped);
    }
    if rest.outs == [] || (|rest.outs| == 1 && rest.outs[0].name == REGISTER) {
      r := Yes;
      NoMoreThanRegister(comp, rest, dropped);
    } else {
      r := No;
    }
  }

  /** `cvtNeedsWarpShuffle` says yes exactly if the conversion is separable in block and warp and not in
      lane; the comparison with {register, lane} relies on the source listing them in this order. */
  method CvtNeedsWarpShuffle(dst: Layout, src: Layout) returns (r: Answer, comp: Layout)
    requires Convertible(dst, src)
    ensures r.FatalError? <==> !LeadingBasesIndependent(dst, src)
    ensures !r.FatalError? ==>
              && WellFormed(comp) && InDims(comp.ins) == InDims(dst.ins) && comp.outs == InDims(src.ins)
              && (Correct(dst, src, comp) <==> Aligned(dst, src))
    ensures r.Yes? <==> !r.FatalError? && Separable(comp, "block") && Separable(comp, "warp") && !Separable(comp, "lane")
                        && Before(comp.outs, "register", "lane")
  {
    hide Separable, Reduces;
    var c := InvertAndCompose.InvertAndCompose(dst, src);
    if c.Fatal? {
      return FatalError, dst;
    }
    comp := c.layout;
    var rest := MinimalCvtLayout(comp);
    if |rest.outs| == 2 && rest.outs[0].name == REGISTER && rest.outs[1].name == LANE {
      r := Yes;
      TwoLeft(comp, rest);
    } else {
      r := No;
      NotTwoLeft(comp, rest);
    }
  }

  lemma TwoLeft(comp: Layout, rest: Layout)
    requires Reduces(comp, rest, Dropped(rest)) && InOrder(rest.outs, comp.outs)
    requires |rest.outs| == 2 && rest.outs[0].name == "register" && rest.outs[1].name == "lane"
    ensures "block" in Dropped(rest) && "warp" in Dropped(rest) && "lane" !in Dropped(rest) && Before(comp.outs, "register", "lane")
  {
    hide Reduces;
    NamesDiffer();
    assert Names(rest.outs) == {"register", "lane"} by {
      assert forall n :: n in Names(rest.outs) <==> n == rest.outs[0].name || n == rest.outs[1].name;
    }
  }

  lemma NotTwoLeft(comp: Layout, rest: Layout)
    requires Reduces(comp, rest, Dropped(rest)) && Names(comp.outs) == HARDWARE && InOrder(rest.outs, comp.outs)
    requires "register" in Dropped(rest) ==> "lane" in Dropped(rest)
    requires !(|rest.outs| == 2 && rest.outs[0].name == "register" && rest.outs[1].name == "lane")
    ensures !("block" in Dropped(rest) && "warp" in Dropped(rest) && "lane" !in Dropped(rest) && Before(comp.outs, "register", "lane"))
  {
    hide ReducesAt;
    NamesDiffer();
    if "block" in Dropped(rest) && "warp" in Dropped(rest) && "lane" !in Dropped(rest) {
      assert Names(rest.outs) == {REGISTER, LANE};
      TwoNames(rest.outs, LANE, REGISTER);
      if rest.outs[0].name == LANE {
        assert Before(comp.outs, LANE, REGISTER);
        NotBoth(comp.outs, LANE, REGISTER);
      }
    }
  }

  lemma TwoNames(dims: seq<Dim>, a: Name, b: Name)
    requires Distinct(dims) && Names(dims) == {a, b} && a != b
    ensures |dims| == 2 && ((dims[0].name == a && dims[1].name == b) || (dims[0].name == b && dims[1].name == a))
  {
    assert forall i :: 0 <= i < |dims| ==> dims[i].name in Names(dims);
    var i, j := Index(dims, a), Index(dims, b);
    if |dims| > 2 {
      ThirdName(dims, a, b);
    }
  }

  lemma ThirdName(dims: seq<Dim>, a: Name, b: Name)
    requires Distinct(dims) && |dims| > 2
    ensures exists k :: 0 <= k < |dims| && dims[k].name != a && dims[k].name != b
  {
    assert dims[0].name != dims[1].name && dims[1].name != dims[2].name && dims[0].name != dims[2].name;
    var k := if dims[0].name != a && dims[0].name != b then 0 else if dims[1].name != a && dims[1].name != b then 1 else 2;
    assert dims[k].name != a && dims[k].name != b;
  }

  lemma NotBoth(dims: seq<Dim>, a: Name, b: Name)
    requires Distinct(dims) && Before(dims, a, b)
    ensures !Before(dims, b, a)
  {
    var i, j :| 0 <= i < j < |dims| && dims[i].name == a && dims[j].name == b;
    forall p, q | 0 <= p < q < |dims| ensures !(dims[p].name == b && dims[q].name == a) {
      assert dims[p].name == b ==> p == j;
      assert dims[q].name == a ==> q == i;
    }
  }

  lemma OnlyRegisterLeft(comp: Layout, rest: Layout, dropped: set<Name>)
    requires Reduces(comp, rest, dropped) && Names(comp.outs) == HARDWARE && {BLOCK, WARP, LANE} <= dropped
    ensures rest.outs == [] || (|rest.outs| == 1 && rest.outs[0].name == REGISTER)
  {
    hide ReducesAt;
    assert forall i :: 0 <= i < |rest.outs| ==> rest.outs[i].name in Names(rest.outs);
    if |rest.outs| > 1 {
      DistinctPair(rest.outs);
    }
  }

  lemma DistinctPair(dims: seq<Dim>)
    requires Distinct(dims) && |dims| > 1
    ensures dims[0].name != dims[1].name
  {
  }

  lemma NoMoreThanRegister(comp: Layout, rest: Layout, dropped: set<Name>)
    requires Reduces(comp, rest, dropped) && Names(comp.outs) == HARDWARE
    requires rest.outs == [] || (|rest.outs| == 1 && rest.outs[0].name == REGISTER)
    ensures OnlyMovesRegisters(comp) && SizesAgree(comp)
  {
    assert Names(rest.outs) <= {REGISTER};
    forall n | n in HARDWARE && n != REGISTER ensures n in dropped {
      assert n !in Names(rest.outs);
    }
    forall x: Coord, n: Name | InRange(InDims(comp.ins), x) && n in HARDWARE && n != REGISTER
      ensures Copies(comp, x, n)
    {
      assert ReducesAt(comp, rest, dropped, x);
    }
    forall x: Coord, y: Coord | InRange(InDims(comp.ins), x) && InRange(InDims(comp.ins), y)
      ensures SameRegister(comp, x, y)
    {
      assert ReducesAt(comp, rest, dropped, x) && ReducesAt(comp, rest, dropped, y);
      assert REGISTER in Names(InDims(comp.ins));
      if REGISTER !in dropped && x[REGISTER] == y[REGISTER] {
        SameInput(rest, x, y);
      }
    }
  }

  // A layout with no in-dimension but the register sees only the register.
  lemma SameInput(rest: Layout, x: Coord, y: Coord)
    requires WellFormed(rest) && Covers(InDims(rest.ins), x) && Covers(InDims(rest.ins), y)
    requires Names(InDims(rest.ins)) <= {REGISTER} && REGISTER in x && REGISTER in y && x[REGISTER] == y[REGISTER]
    ensures Apply(rest, x) == Apply(rest, y)
  {
    forall i | 0 <= i < |rest.ins| ensures InDims(rest.ins)[i].name == REGISTER {
      assert InDims(rest.ins)[i].name in Names(InDims(rest.ins));
    }
    forall n | n in Names(rest.outs) ensures Apply(rest, x)[n] == Apply(rest, y)[n] {
      SameOutValue(rest.ins, x, y, Index(rest.outs, n));
      ApplyAt(rest, x, Index(rest.outs, n));
      ApplyAt(rest, y, Index(rest.outs, n));
    }
  }

  lemma {:induction false} SameOutValue(ins: seq<InDim>, x: Coord, y: Coord, j: nat)
    requires Covers(InDims(ins), x) && Covers(InDims(ins), y)
    requires forall d :: 0 <= d < |ins| ==> forall i :: 0 <= i < |ins[d].bases| ==> j < |ins[d].bases[i]|
    requires forall i :: 0 <= i < |ins| ==> InDims(ins)[i].name in x && InDims(ins)[i].name in y && x[InDims(ins)[i].name] == y[InDims(ins)[i].name]
    ensures OutValue(ins, x, j) == OutValue(ins, y, j)
  {
    if |ins| > 0 {
      assert InDims(ins)[0].name in x && InDims(ins)[1..] == InDims(ins[1..]);
      assert forall i :: 0 <= i < |ins| - 1 ==> InDims(ins[1..])[i] == InDims(ins)[i + 1];
      SameOutValue(ins[1..], x, y, j);
    }
  }
}
