/** getReshapeDecomposition (lib/Analysis/Utility.cpp:324-360): a reshape as a sequence of steps
that each merge some source dimensions and split them into some destination dimensions. */
module ReshapeDecomposition {

  type Shape = seq<nat>

  datatype Step = Step(src: seq<nat>, dst: seq<nat>)

  ghost predicate Positive(s: Shape) {
    forall i :: 0 <= i < |s| ==> s[i] > 0
  }

  function Product(s: Shape): nat {
    if s == [] then 1 else Product(s[..|s| - 1]) * s[|s| - 1]
  }

  lemma ProductSnoc(s: Shape, d: nat)
    ensures Product(s + [d]) == Product(s) * d
  {
    assert (s + [d])[..|s|] == s;
  }

  lemma {:induction false} ProductAppend(a: Shape, b: Shape)
    ensures Product(a + b) == Product(a) * Product(b)
  {
    if b == [] {
      assert a + b == a;
    } else {
      assert (a + b)[..|a + b| - 1] == a + b[..|b| - 1];
      ProductAppend(a, b[..|b| - 1]);
      Associate(Product(a), Product(b[..|b| - 1]), b[|b| - 1]);
    }
  }

  lemma Associate(a: nat, b: nat, c: nat)
    ensures a * b * c == a * (b * c)
  {
  }

  lemma {:induction false} ProductPositive(s: Shape)
    requires Positive(s)
    ensures Product(s) > 0
  {
    if s != [] {
      ProductPositive(s[..|s| - 1]);
    }
  }

  // lo, lo + 1, ..., hi - 1
  function Range(lo: nat, hi: nat): (r: seq<nat>)
    requires lo <= hi
    ensures |r| == hi - lo && forall i :: 0 <= i < |r| ==> r[i] == lo + i
  {
    seq(hi - lo, i requires 0 <= i => lo + i)
  }

  function SrcOf(steps: seq<Step>): seq<nat> {
    if steps == [] then [] else SrcOf(steps[..|steps| - 1]) + steps[|steps| - 1].src
  }

  function DstOf(steps: seq<Step>): seq<nat> {
    if steps == [] then [] else DstOf(steps[..|steps| - 1]) + steps[|steps| - 1].dst
  }

  ghost predicate Indexes(s: Shape, idx: seq<nat>) {
    forall i :: 0 <= i < |idx| ==> idx[i] < |s|
  }

  // The sizes of the named dimensions.
  ghost function Sizes(s: Shape, idx: seq<nat>): (r: Shape)
    requires Indexes(s, idx)
    ensures |r| == |idx| && forall i :: 0 <= i < |r| ==> r[i] == s[idx[i]]
  {
    seq(|idx|, i requires 0 <= i < |idx| => s[idx[i]])
  }

  /** No proper beginnings of the two sides match in size, except trivially: a step with this
      property is not two steps put together. */
  ghost predicate Finest(a: Shape, b: Shape) {
    forall p, q :: 0 <= p <= |a| && 0 <= q <= |b| && Product(a[..p]) == Product(b[..q]) ==> Product(a[..p]) == 1 || Product(a[..p]) == Product(a)
  }

  ghost predicate StepOk(src: Shape, dst: Shape, s: Step) {
    && Indexes(src, s.src) && Indexes(dst, s.dst)
    && Product(Sizes(src, s.src)) == Product(Sizes(dst, s.dst))
    && Finest(Sizes(src, s.src), Sizes(dst, s.dst))
  }

  ghost predicate Nontrivial(src: Shape, s: Step) {
    Indexes(src, s.src) && Product(Sizes(src, s.src)) > 1
  }

  // The step under construction: a and b are the sizes taken so far.
  ghost predicate Open(a: Shape, b: Shape) {
    && Product(a) > 0 && Product(b) > 0
    && (forall p :: 0 <= p <= |a| ==> PrefixOk(a, b, p))
    && (forall q :: 0 <= q <= |b| ==> PrefixOk(b, a, q))
    && forall p, q :: 0 <= p <= |a| && 0 <= q <= |b| ==> MatchOk(a, b, p, q)
  }

  ghost predicate PrefixOk(a: Shape, b: Shape, p: nat)
    requires p <= |a|
  {
    Product(a[..p]) == Product(a) || Product(a[..p]) <= Product(b)
  }

  ghost predicate MatchOk(a: Shape, b: Shape, p: nat, q: nat)
    requires p <= |a| && q <= |b|
  {
    Product(a[..p]) == Product(b[..q]) ==> Product(a[..p]) == 1 || Product(a[..p]) == Product(a) == Product(b)
  }

  lemma SnocFacts(a: Shape, d: nat)
    requires Product(a) > 0 && d > 0
    ensures Product(a + [d]) == Product(a) * d >= Product(a)
    ensures d > 1 ==> Product(a + [d]) > Product(a)
    ensures d == 1 ==> Product(a + [d]) == Product(a)
    ensures (a + [d])[..|a| + 1] == a + [d]
  {
    hide Product;
    ProductSnoc(a, d);
    Scale(Product(a), d);
  }

  lemma Scale(x: nat, d: nat)
    requires x > 0 && d > 0
    ensures x * d >= x && (d > 1 ==> x * d > x) && (d == 1 ==> x * d == x)
  {
    if d > 1 {
      assert x * d == x + x * (d - 1);
    }
  }

  lemma PrefixSnoc(a: Shape, d: nat, p: nat)
    requires p <= |a|
    ensures (a + [d])[..p] == a[..p]
  {
  }

  // The side that may take its next dimension, of size d.
  ghost predicate MayTake(a: Shape, b: Shape, d: nat) {
    Product(a) < Product(b) || Product(a) == Product(b) == 1 || d == 1
  }

  lemma PrefixAfter(a: Shape, b: Shape, d: nat, p: nat)
    requires Open(a, b) && d > 0 && MayTake(a, b, d) && p <= |a| + 1
    ensures PrefixOk(a + [d], b, p)
  {
    hide Product, MatchOk;
    SnocFacts(a, d);
    if p <= |a| {
      PrefixSnoc(a, d, p);
      assert PrefixOk(a, b, p);
    }
  }

  lemma OtherPrefixAfter(a: Shape, b: Shape, d: nat, q: nat)
    requires Open(a, b) && d > 0 && q <= |b|
    ensures PrefixOk(b, a + [d], q)
  {
    hide Product, MatchOk;
    SnocFacts(a, d);
    assert PrefixOk(b, a, q);
  }

  lemma MatchAfter(a: Shape, b: Shape, d: nat, p: nat, q: nat)
    requires Open(a, b) && d > 0 && MayTake(a, b, d) && p <= |a| + 1 && q <= |b|
    ensures MatchOk(a + [d], b, p, q)
  {
    hide Product;
    SnocFacts(a, d);
    assert a[..|a|] == a;
    assert PrefixOk(b, a, q) && MatchOk(a, b, |a|, q);
    if p <= |a| {
      PrefixSnoc(a, d, p);
      assert MatchOk(a, b, p, q);
    }
  }

  // Taking a dimension of size 1 changes nothing; taking another is allowed on the smaller side.
  lemma Take(a: Shape, b: Shape, d: nat)
    requires Open(a, b) && d > 0 && MayTake(a, b, d)
    ensures Open(a + [d], b)
  {
    hide Product, PrefixOk, MatchOk;
    SnocFacts(a, d);
    forall p | 0 <= p <= |a + [d]| ensures PrefixOk(a + [d], b, p) {
      PrefixAfter(a, b, d, p);
    }
    forall q | 0 <= q <= |b| ensures PrefixOk(b, a + [d], q) {
      OtherPrefixAfter(a, b, d, q);
    }
    forall p, q | 0 <= p <= |a + [d]| && 0 <= q <= |b| ensures MatchOk(a + [d], b, p, q) {
      MatchAfter(a, b, d, p, q);
    }
  }

  lemma OpenSymmetric(a: Shape, b: Shape)
    requires Open(a, b)
    ensures Open(b, a)
  {
    hide Product, PrefixOk;
    forall p, q | 0 <= p <= |b| && 0 <= q <= |a| ensures MatchOk(b, a, p, q) {
      assert MatchOk(a, b, q, p);
    }
  }

  lemma OpenAtStart()
    ensures Open([], [])
  {
  }

  lemma OpenCloses(a: Shape, b: Shape)
    requires Open(a, b) && Product(a) == Product(b)
    ensures Finest(a, b)
  {
    forall p, q | 0 <= p <= |a| && 0 <= q <= |b| && Product(a[..p]) == Product(b[..q])
      ensures Product(a[..p]) == 1 || Product(a[..p]) == Product(a)
    {
      assert MatchOk(a, b, p, q);
    }
  }

  // ---------- the loop ----------

  // The products of what is left on the two sides agree once what is open is counted in.
  ghost predicate Balanced(src: Shape, dst: Shape, i: nat, j: nat, a: Shape, b: Shape)
    requires i <= |src| && j <= |dst|
  {
    Product(a) * Product(src[i..]) == Product(b) * Product(dst[j..])
  }

  lemma RestTail(s: Shape, i: nat)
    requires i < |s|
    ensures Product(s[i..]) == s[i] * Product(s[i + 1..])
  {
    assert s[i..] == [s[i]] + s[i + 1..];
    ProductAppend([s[i]], s[i + 1..]);
    assert |[s[i]][..0]| == 0;
  }

  lemma RestDone(s: Shape)
    ensures Product(s[|s|..]) == 1
  {
  }

  lemma BalancedAfter(src: Shape, dst: Shape, i: nat, j: nat, a: Shape, b: Shape)
    requires i < |src| && j <= |dst| && Balanced(src, dst, i, j, a, b)
    ensures Balanced(src, dst, i + 1, j, a + [src[i]], b)
  {
    RestTail(src, i);
    ProductSnoc(a, src[i]);
    Associate(Product(a), src[i], Product(src[i + 1..]));
  }

  lemma BalancedSwap(src: Shape, dst: Shape, i: nat, j: nat, a: Shape, b: Shape)
    requires i <= |src| && j <= |dst| && Balanced(src, dst, i, j, a, b)
    ensures Balanced(dst, src, j, i, b, a)
  {
  }

  // The smaller side has dimensions left.
  lemma SmallerHasMore(src: Shape, dst: Shape, i: nat, j: nat, a: Shape, b: Shape)
    requires Positive(src) && Positive(dst) && i <= |src| && j <= |dst| && Balanced(src, dst, i, j, a, b)
    requires Product(a) < Product(b)
    ensures i < |src|
  {
    ProductPositive(dst[j..]);
    if i == |src| {
      RestDone(src);
      Larger(Product(b), Product(dst[j..]));
    }
  }

  lemma Larger(x: nat, y: nat)
    requires y > 0
    ensures x * y >= x
  {
    assert x * y == x + x * (y - 1);
  }

  // With both sides level and one exhausted, the next dimension of the other has size 1.
  lemma LevelMeansOne(src: Shape, dst: Shape, j: nat, a: Shape, b: Shape)
    requires Positive(src) && Positive(dst) && j < |dst| && Balanced(src, dst, |src|, j, a, b)
    requires Product(a) == Product(b) > 0
    ensures dst[j] == 1
  {
    RestDone(src);
    RestTail(dst, j);
    ProductPositive(dst[j + 1..]);
    OnlyOne(Product(b), dst[j], Product(dst[j + 1..]));
  }

  lemma OnlyOne(x: nat, d: nat, r: nat)
    requires x > 0 && d > 0 && r > 0 && x == x * (d * r)
    ensures d == 1
  {
    Cancel(x, d * r, 1);
    Larger(d, r);
  }

  lemma LevelRest(src: Shape, dst: Shape, i: nat, j: nat, a: Shape, b: Shape)
    requires i <= |src| && j <= |dst| && Balanced(src, dst, i, j, a, b) && Product(a) == Product(b) > 0
    ensures Balanced(src, dst, i, j, [], [])
  {
    Cancel(Product(a), Product(src[i..]), Product(dst[j..]));
  }

  lemma Cancel(x: nat, y: nat, z: nat)
    requires x > 0 && x * y == x * z
    ensures y == z
  {
    if y < z {
      assert x * z == x * y + x * (z - y);
      Larger(z - y, x);
    }
    if z < y {
      assert x * y == x * z + x * (y - z);
      Larger(y - z, x);
    }
  }

  // ---------- getReshapeDecomposition ----------

  // The finished steps and the open one cover the dimensions before i and j.
  ghost predicate Covers(src: Shape, dst: Shape, steps: seq<Step>, open: Step, i: nat, j: nat)
    requires i <= |src| && j <= |dst|
  {
    && SrcOf(steps) + open.src == Range(0, i) && DstOf(steps) + open.dst == Range(0, j)
    && Indexes(src, open.src) && Indexes(dst, open.dst)
    && forall k :: 0 <= k < |steps| ==> StepOk(src, dst, steps[k]) && Nontrivial(src, steps[k])
  }

  lemma CoversSrc(src: Shape, dst: Shape, steps: seq<Step>, open: Step, i: nat, j: nat)
    requires i < |src| && j <= |dst| && Covers(src, dst, steps, open, i, j)
    ensures Covers(src, dst, steps, Step(open.src + [i], open.dst), i + 1, j) && Indexes(src, open.src + [i])
    ensures Sizes(src, open.src + [i]) == Sizes(src, open.src) + [src[i]]
  {
    hide StepOk, Nontrivial, SrcOf, DstOf;
    assert SrcOf(steps) + (open.src + [i]) == Range(0, i) + [i] == Range(0, i + 1);
  }

  lemma CoversDst(src: Shape, dst: Shape, steps: seq<Step>, open: Step, i: nat, j: nat)
    requires i <= |src| && j < |dst| && Covers(src, dst, steps, open, i, j)
    ensures Covers(src, dst, steps, Step(open.src, open.dst + [j]), i, j + 1) && Indexes(dst, open.dst + [j])
    ensures Sizes(dst, open.dst + [j]) == Sizes(dst, open.dst) + [dst[j]]
  {
    hide StepOk, Nontrivial, SrcOf, DstOf;
    assert DstOf(steps) + (open.dst + [j]) == Range(0, j) + [j] == Range(0, j + 1);
  }

  lemma CoversClose(src: Shape, dst: Shape, steps: seq<Step>, open: Step, i: nat, j: nat)
    requires i <= |src| && j <= |dst| && Covers(src, dst, steps, open, i, j)
    requires Open(Sizes(src, open.src), Sizes(dst, open.dst)) && Product(Sizes(src, open.src)) == Product(Sizes(dst, open.dst)) > 1
    ensures Covers(src, dst, steps + [open], Step([], []), i, j)
  {
    hide Product, Open, Finest;
    OpenCloses(Sizes(src, open.src), Sizes(dst, open.dst));
    assert (steps + [open])[..|steps|] == steps;
    assert SrcOf(steps + [open]) + [] == SrcOf(steps) + open.src;
    assert DstOf(steps + [open]) + [] == DstOf(steps) + open.dst;
  }

  /** The result: consecutive steps covering all dimensions on both sides in order, each of equal
      size on both sides, and none the combination of two smaller ones. */
  ghost predicate Decomposes(src: Shape, dst: Shape, steps: seq<Step>) {
    && SrcOf(steps) == Range(0, |src|) && DstOf(steps) == Range(0, |dst|)
    && (forall k :: 0 <= k < |steps| ==> StepOk(src, dst, steps[k]))
    && forall k :: 0 <= k < |steps| - 1 ==> Nontrivial(src, steps[k])
  }

  lemma Finish(src: Shape, dst: Shape, steps: seq<Step>, open: Step)
    requires Positive(src) && Positive(dst) && Covers(src, dst, steps, open, |src|, |dst|)
    requires Open(Sizes(src, open.src), Sizes(dst, open.dst))
    requires Balanced(src, dst, |src|, |dst|, Sizes(src, open.src), Sizes(dst, open.dst))
    ensures Decomposes(src, dst, steps + [open])
  {
    hide Product, Open, Finest;
    RestDone(src);
    RestDone(dst);
    OpenCloses(Sizes(src, open.src), Sizes(dst, open.dst));
    assert (steps + [open])[..|steps|] == steps;
    assert SrcOf(steps + [open]) == SrcOf(steps) + open.src;
    assert DstOf(steps + [open]) == DstOf(steps) + open.dst;
  }

  /** `getReshapeDecomposition`.  `ok` is false where an assertion fails: that is only for an empty
      source shape and a destination shape that is not empty. */
  method GetReshapeDecomposition(src: Shape, dst: Shape) returns (ok: bool, steps: seq<Step>)
    requires Positive(src) && Positive(dst) && Product(src) == Product(dst)
    ensures ok <==> (src == [] ==> dst == [])
    ensures ok ==> Decomposes(src, dst, steps)
  {
    hide Product, Open, Balanced, Covers, Decomposes, Sizes;
    if src == [] {
      NothingToDecompose();
      return dst == [], [];
    }
    steps := [];
    var open := Step([], []);
    var srcIdx, dstIdx := 0, 0;
    var srcNElems, dstNElems := 1, 1;
    StartState(src, dst);
    while srcIdx < |src| || dstIdx < |dst|
      invariant 0 <= srcIdx <= |src| && 0 <= dstIdx <= |dst|
      invariant LoopState(src, dst, steps, open, srcIdx, dstIdx, srcNElems, dstNElems)
      invariant srcNElems == 1 ==> dstNElems == 1
      decreases |src| - srcIdx + |dst| - dstIdx, srcNElems
    {
      if srcNElems < dstNElems || (srcIdx < |src| && srcNElems == 1) || (srcIdx < |src| && src[srcIdx] == 1) {
        SrcTurn(src, dst, steps, open, srcIdx, dstIdx, srcNElems, dstNElems);
        srcNElems := srcNElems * src[srcIdx];
        open := Step(open.src + [srcIdx], open.dst);
        srcIdx := srcIdx + 1;
      } else if dstNElems < srcNElems || (dstIdx < |dst| && dst[dstIdx] == 1) {
        DstTurn(src, dst, steps, open, srcIdx, dstIdx, srcNElems, dstNElems);
        dstNElems := dstNElems * dst[dstIdx];
        open := Step(open.src, open.dst + [dstIdx]);
        dstIdx := dstIdx + 1;
      } else {
        NewStep(src, dst, steps, open, srcIdx, dstIdx, srcNElems, dstNElems);
        steps := steps + [open];
        open := Step([], []);
        srcNElems, dstNElems := 1, 1;
      }
    }
    EndState(src, dst, steps, open, srcNElems, dstNElems);
    steps := steps + [open];
    ok := true;
  }

  // What holds between turns.
  ghost predicate LoopState(src: Shape, dst: Shape, steps: seq<Step>, open: Step, i: nat, j: nat, x: nat, y: nat)
    requires i <= |src| && j <= |dst|
  {
    && Covers(src, dst, steps, open, i, j) && Indexes(src, open.src) && Indexes(dst, open.dst)
    && Open(Sizes(src, open.src), Sizes(dst, open.dst))
    && x == Product(Sizes(src, open.src)) && y == Product(Sizes(dst, open.dst))
    && Balanced(src, dst, i, j, Sizes(src, open.src), Sizes(dst, open.dst))
  }

  lemma NothingToDecompose()
    ensures Decomposes([], [], [])
  {
  }

  lemma StartState(src: Shape, dst: Shape)
    requires Product(src) == Product(dst)
    ensures LoopState(src, dst, [], Step([], []), 0, 0, 1, 1)
  {
    OpenAtStart();
    assert src[0..] == src && dst[0..] == dst;
    assert Sizes(src, []) == [] && Sizes(dst, []) == [];
  }

  lemma SrcTurn(src: Shape, dst: Shape, steps: seq<Step>, open: Step, i: nat, j: nat, x: nat, y: nat)
    requires Positive(src) && Positive(dst) && i <= |src| && j <= |dst| && LoopState(src, dst, steps, open, i, j, x, y)
    requires x == 1 ==> y == 1
    requires x < y || (i < |src| && x == 1) || (i < |src| && src[i] == 1)
    ensures i < |src| && LoopState(src, dst, steps, Step(open.src + [i], open.dst), i + 1, j, x * src[i], y)
    ensures x * src[i] == 1 ==> y == 1
  {
    hide Product, Open, Covers, Balanced;
    var a, b := Sizes(src, open.src), Sizes(dst, open.dst);
    if x < y {
      SmallerHasMore(src, dst, i, j, a, b);
    }
    CoversSrc(src, dst, steps, open, i, j);
    OpenPositive(a, b);
    Take(a, b, src[i]);
    SnocFacts(a, src[i]);
    BalancedAfter(src, dst, i, j, a, b);
  }

  lemma DstTurn(src: Shape, dst: Shape, steps: seq<Step>, open: Step, i: nat, j: nat, x: nat, y: nat)
    requires Positive(src) && Positive(dst) && i <= |src| && j <= |dst| && LoopState(src, dst, steps, open, i, j, x, y)
    requires x == 1 ==> y == 1
    requires y < x || (j < |dst| && dst[j] == 1)
    ensures j < |dst| && LoopState(src, dst, steps, Step(open.src, open.dst + [j]), i, j + 1, x, y * dst[j])
    ensures x == 1 ==> y * dst[j] == 1
  {
    hide Product, Open, Covers, Balanced;
    var a, b := Sizes(src, open.src), Sizes(dst, open.dst);
    OpenPositive(a, b);
    BalancedSwap(src, dst, i, j, a, b);
    if y < x {
      SmallerHasMore(dst, src, j, i, b, a);
    }
    CoversDst(src, dst, steps, open, i, j);
    OpenSymmetric(a, b);
    Take(b, a, dst[j]);
    OpenSymmetric(b + [dst[j]], a);
    SnocFacts(b, dst[j]);
    BalancedAfter(dst, src, j, i, b, a);
    BalancedSwap(dst, src, j + 1, i, b + [dst[j]], a);
  }

  lemma OpenPositive(a: Shape, b: Shape)
    requires Open(a, b)
    ensures Product(a) > 0 && Product(b) > 0
  {
  }

  lemma NewStep(src: Shape, dst: Shape, steps: seq<Step>, open: Step, i: nat, j: nat, x: nat, y: nat)
    requires Positive(src) && Positive(dst) && i <= |src| && j <= |dst| && LoopState(src, dst, steps, open, i, j, x, y)
    requires i < |src| || j < |dst|
    requires x == y && !(i < |src| && x == 1) && !(i < |src| && src[i] == 1) && !(j < |dst| && dst[j] == 1)
    ensures x > 1 && LoopState(src, dst, steps + [open], Step([], []), i, j, 1, 1)
  {
    hide Product, Open, Covers, Balanced;
    var a, b := Sizes(src, open.src), Sizes(dst, open.dst);
    OpenPositive(a, b);
    if i == |src| {
      LevelMeansOne(src, dst, j, a, b);
    }
    CoversClose(src, dst, steps, open, i, j);
    LevelRest(src, dst, i, j, a, b);
    EmptyOpen(src, dst);
  }

  lemma EmptyOpen(src: Shape, dst: Shape)
    ensures Sizes(src, []) == [] && Sizes(dst, []) == [] && Open([], []) && Product([]) == 1
  {
    OpenAtStart();
  }

  lemma EndState(src: Shape, dst: Shape, steps: seq<Step>, open: Step, x: nat, y: nat)
    requires Positive(src) && Positive(dst) && LoopState(src, dst, steps, open, |src|, |dst|, x, y)
    ensures Decomposes(src, dst, steps + [open])
  {
    hide Product, Open, Covers, Balanced;
    Finish(src, dst, steps, open);
  }
}
