/** The input gradient of layer norm: what one program of _layer_norm_bwd_dx_fused stores for its
row (python/tutorials/05-layer-norm.py:144-171). */
module LayerNormGradient {
  type Vector = seq<real>

  function Sum(a: Vector): real {
    if |a| == 0 then 0.0 else Sum(a[..|a| - 1]) + a[|a| - 1]
  }

  function Inner(a: Vector, b: Vector): real
    requires |a| == |b|
  {
    if |a| == 0 then 0.0 else Inner(a[..|a| - 1], b[..|b| - 1]) + a[|a| - 1] * b[|b| - 1]
  }

  function Minus(a: Vector, s: real): (r: Vector)
    ensures |r| == |a| && forall j :: 0 <= j < |r| ==> r[j] == a[j] - s
  {
    seq(|a|, j requires 0 <= j < |a| => a[j] - s)
  }

  // ---------- sums of linear combinations ----------

  function Combine(s: real, a: real, u: real, b: real, v: real, c: real): real {
    s * a + u * b + v * c
  }

  // If c = s a + u b + v, then so are the inner products with t.
  lemma {:induction false} InnerCombines(c: Vector, a: Vector, b: Vector, s: real, u: real, v: real, t: Vector)
    requires |a| == |b| == |c| == |t| && forall j :: 0 <= j < |c| ==> c[j] == Combine(s, a[j], u, b[j], v, 1.0)
    ensures Inner(c, t) == Combine(s, Inner(a, t), u, Inner(b, t), v, Sum(t))
  {
    if |c| > 0 {
      hide Combine;
      var n := |c| - 1;
      InnerCombines(c[..n], a[..n], b[..n], s, u, v, t[..n]);
      CombineTimes(s, a[n], u, b[n], v, t[n]);
      CombineAdds(s, u, v, Inner(a[..n], t[..n]), Inner(b[..n], t[..n]), Sum(t[..n]), a[n] * t[n], b[n] * t[n], t[n]);
    } else {
      CombineZero(s, u, v);
    }
  }

  lemma CombineZero(s: real, u: real, v: real)
    ensures Combine(s, 0.0, u, 0.0, v, 0.0) == 0.0
  {
  }

  lemma CombineTimes(s: real, a: real, u: real, b: real, v: real, t: real)
    ensures Combine(s, a, u, b, v, 1.0) * t == Combine(s, a * t, u, b * t, v, t)
  {
    assert (s * a) * t == s * (a * t) && (u * b) * t == u * (b * t);
  }

  lemma CombineAdds(s: real, u: real, v: real, a: real, b: real, c: real, a': real, b': real, c': real)
    ensures Combine(s, a + a', u, b + b', v, c + c') == Combine(s, a, u, b, v, c) + Combine(s, a', u, b', v, c')
  {
    Regroup(s, a, a');
    Regroup(u, b, b');
    Regroup(v, c, c');
  }

  lemma Regroup(s: real, x: real, y: real)
    ensures s * (x + y) == s * x + s * y
  {
  }

  lemma {:induction false} InnerCommutes(a: Vector, b: Vector)
    requires |a| == |b|
    ensures Inner(a, b) == Inner(b, a)
  {
    if |a| > 0 {
      InnerCommutes(a[..|a| - 1], b[..|b| - 1]);
    }
  }

  lemma {:induction false} SumMinus(a: Vector, s: real)
    ensures Sum(Minus(a, s)) == Sum(a) - s * (|a| as real)
  {
    if |a| > 0 {
      var n := |a| - 1;
      SumMinus(a[..n], s);
      assert Minus(a, s)[..n] == Minus(a[..n], s);
      assert (|a| as real) == (n as real) + 1.0;
      Regroup(s, n as real, 1.0);
    }
  }

  // ---------- layer norm along a direction ----------

  datatype Stats = Stats(mean: real, variance: real, rstd: real)

  /** Mean and variance of a row, and 1 / sqrt(variance + eps), as the forward pass computed them. */
  ghost predicate Statistics(x: Vector, eps: real, s: Stats) {
    && |x| > 0
    && s.mean * (|x| as real) == Sum(x)
    && s.variance * (|x| as real) == Inner(Minus(x, s.mean), Minus(x, s.mean))
    && s.rstd * s.rstd * (s.variance + eps) == 1.0
  }

  /** How the statistics change to first order when the row changes along t: the derivatives of the
      equations of `Statistics`. */
  ghost predicate ChangesAlong(x: Vector, eps: real, s: Stats, t: Vector, d: Stats)
    requires |x| == |t|
  {
    && d.mean * (|x| as real) == Sum(t)
    && d.variance * (|x| as real) == 2.0 * Inner(Minus(x, s.mean), Minus(t, d.mean))
    && 2.0 * s.rstd * d.rstd * (s.variance + eps) + s.rstd * s.rstd * d.variance == 0.0
  }

  // The change of a product e * r.
  function ProductAlong(de: real, r: real, e: real, dr: real): real {
    de * r + e * dr
  }

  // ... and how the normalized row (x - mean) * rstd changes.
  function XhatAlong(x: Vector, s: Stats, t: Vector, d: Stats): (r: Vector)
    requires |x| == |t|
    ensures |r| == |x| && forall j :: 0 <= j < |r| ==> r[j] == ProductAlong(t[j] - d.mean, s.rstd, x[j] - s.mean, d.rstd)
  {
    seq(|x|, j requires 0 <= j < |x| => ProductAlong(t[j] - d.mean, s.rstd, x[j] - s.mean, d.rstd))
  }

  ghost predicate GradientAlong(x: Vector, eps: real, s: Stats, wdy: Vector, dx: Vector, t: Vector, d: Stats)
    requires |x| == |wdy| == |dx|
  {
    |t| == |x| && Statistics(x, eps, s) && ChangesAlong(x, eps, s, t, d) ==> Inner(dx, t) == Inner(wdy, XhatAlong(x, s, t, d))
  }

  /** `dx` is the gradient of the row's part of the loss: along every direction, the loss changes by
      the inner product with `dx`.  The loss changes with the normalized row by `wdy`. */
  ghost predicate IsGradient(x: Vector, mean: real, rstd: real, wdy: Vector, dx: Vector) {
    && |x| == |wdy| == |dx|
    && forall eps: real, variance: real, t: Vector, d: Stats :: |t| == |x| ==>
         GradientAlong(x, eps, Stats(mean, variance, rstd), wdy, dx, t, d)
  }

  // ---------- the formula of the kernel ----------

  // One element of the gradient, e being the deviation of the row's element from the mean.
  function DxOf(w: real, e: real, r: real, c1: real, c2: real): real {
    (w - (e * r * c1 + c2)) * r
  }

  // The weights of the deviations and of 1 in a gradient.
  function ByDeviation(r: real, c1: real): real {
    -(r * c1 * r)
  }

  function ByShift(r: real, c2: real): real {
    -(r * c2)
  }

  // dx = (wdy - (xhat * c1 + c2)) * rstd, with the means c1 of xhat * wdy and c2 of wdy.
  ghost predicate Formula(x: Vector, mean: real, rstd: real, wdy: Vector, dx: Vector, c1: real, c2: real) {
    && |x| == |wdy| == |dx|
    && c1 * (|x| as real) == rstd * Inner(Minus(x, mean), wdy)
    && c2 * (|x| as real) == Sum(wdy)
    && forall j :: 0 <= j < |x| ==> dx[j] == DxOf(wdy[j], Minus(x, mean)[j], rstd, c1, c2)
  }

  // Deviations from the mean do not see a shift.
  lemma DeviationsIgnoreShift(x: Vector, mean: real, t: Vector, s: real)
    requires |x| == |t| && mean * (|x| as real) == Sum(x)
    ensures Inner(Minus(x, mean), Minus(t, s)) == Inner(Minus(x, mean), t)
  {
    hide Inner, Sum;
    var dev := Minus(x, mean);
    SumMinus(x, mean);
    InnerCommutes(dev, Minus(t, s));
    forall j | 0 <= j < |t| ensures Minus(t, s)[j] == Combine(1.0, t[j], 0.0, t[j], -s, 1.0) {
    }
    InnerCombines(Minus(t, s), t, t, 1.0, 0.0, -s, dev);
    InnerCommutes(t, dev);
  }

  lemma ChangeOfRstd(n: real, r: real, v: real, dr: real, dv: real, e: real)
    requires r * r * v == 1.0 && 2.0 * r * dr * v + r * r * dv == 0.0 && dv * n == 2.0 * e
    ensures dr * n == -(r * r * r * e)
  {
    assert r * (2.0 * r * dr * v) == 2.0 * dr * (r * r * v);
    var g := r * r * r;
    assert r * (r * r * dv) == g * dv;
    assert 2.0 * dr + g * dv == 0.0;
    assert (2.0 * dr + g * dv) * n == 2.0 * (dr * n) + g * (dv * n);
  }

  // a, b, c: inner products of wdy with t, 1 and x - mean; e: of x - mean with t.
  lemma BothSides(n: real, r: real, a: real, c1: real, c2: real, b: real, c: real, e: real, dm: real, dr: real, sumT: real)
    requires n > 0.0 && dr * n == -(r * r * r * e) && dm * n == sumT && c1 * n == r * c && c2 * n == b
    ensures Combine(r, a, ByDeviation(r, c1), e, ByShift(r, c2), sumT) == Combine(r, a, dr, c, ByShift(r, dm), b)
  {
    var p, q := r * c1 * r * e, dr * c;
    assert p * n == r * r * e * (c1 * n);
    assert q * n == (dr * n) * c;
    assert r * r * e * (r * c) == (r * r * r * e) * c;
    assert (p + q) * n == 0.0;
    assert p + q == 0.0;
    assert (r * c2) * (dm * n) == (r * dm) * (c2 * n);
  }

  // The change of the loss along t, by the formula ...
  lemma ByFormula(x: Vector, mean: real, rstd: real, wdy: Vector, dx: Vector, c1: real, c2: real, t: Vector)
    requires |x| == |t| && Formula(x, mean, rstd, wdy, dx, c1, c2)
    ensures Inner(dx, t) == Combine(rstd, Inner(wdy, t), ByDeviation(rstd, c1), Inner(Minus(x, mean), t), ByShift(rstd, c2), Sum(t))
  {
    hide Inner, Sum, Combine, DxOf, ByDeviation, ByShift, ProductAlong;
    forall j | 0 <= j < |x| ensures dx[j] == Combine(rstd, wdy[j], ByDeviation(rstd, c1), Minus(x, mean)[j], ByShift(rstd, c2), 1.0) {
      ExpandDx(wdy[j], Minus(x, mean)[j], rstd, c1, c2);
    }
    InnerCombines(dx, wdy, Minus(x, mean), rstd, ByDeviation(rstd, c1), ByShift(rstd, c2), t);
  }

  lemma ExpandDx(w: real, e: real, r: real, c1: real, c2: real)
    ensures DxOf(w, e, r, c1, c2) == Combine(r, w, ByDeviation(r, c1), e, ByShift(r, c2), 1.0)
  {
    assert e * r * c1 * r == (r * c1 * r) * e;
  }

  lemma ExpandXhat(t: real, dm: real, r: real, e: real, dr: real)
    ensures ProductAlong(t - dm, r, e, dr) == Combine(r, t, dr, e, ByShift(r, dm), 1.0)
  {
  }

  // ... and by the changes of the statistics.
  lemma ByChanges(x: Vector, s: Stats, wdy: Vector, t: Vector, d: Stats)
    requires |x| == |wdy| == |t|
    ensures Inner(wdy, XhatAlong(x, s, t, d)) == Combine(s.rstd, Inner(wdy, t), d.rstd, Inner(Minus(x, s.mean), wdy), ByShift(s.rstd, d.mean), Sum(wdy))
  {
    hide Inner, Sum, Combine, DxOf, ByDeviation, ByShift, ProductAlong;
    var c := XhatAlong(x, s, t, d);
    forall j | 0 <= j < |x| ensures c[j] == Combine(s.rstd, t[j], d.rstd, Minus(x, s.mean)[j], ByShift(s.rstd, d.mean), 1.0) {
      assert x[j] - s.mean == Minus(x, s.mean)[j];
      ExpandXhat(t[j], d.mean, s.rstd, x[j] - s.mean, d.rstd);
    }
    InnerCombines(c, t, Minus(x, s.mean), s.rstd, d.rstd, ByShift(s.rstd, d.mean), wdy);
    InnerCommutes(wdy, c);
    InnerCommutes(t, wdy);
  }

  lemma RstdAlong(x: Vector, eps: real, s: Stats, t: Vector, d: Stats)
    requires |x| == |t| && Statistics(x, eps, s) && ChangesAlong(x, eps, s, t, d)
    ensures d.rstd * (|x| as real) == -(s.rstd * s.rstd * s.rstd * Inner(Minus(x, s.mean), t))
  {
    hide Inner, Sum;
    DeviationsIgnoreShift(x, s.mean, t, d.mean);
    ChangeOfRstd(|x| as real, s.rstd, s.variance + eps, d.rstd, d.variance, Inner(Minus(x, s.mean), t));
  }

  lemma Means(x: Vector, eps: real, s: Stats, wdy: Vector, dx: Vector, c1: real, c2: real, t: Vector, d: Stats)
    requires |x| == |t| && Formula(x, s.mean, s.rstd, wdy, dx, c1, c2)
    requires Statistics(x, eps, s) && ChangesAlong(x, eps, s, t, d)
    ensures |x| > 0 && |x| == |wdy| == |dx| && d.mean * (|x| as real) == Sum(t)
    ensures c1 * (|x| as real) == s.rstd * Inner(Minus(x, s.mean), wdy) && c2 * (|x| as real) == Sum(wdy)
  {
    hide Inner, Sum, DxOf;
  }

  lemma FormulaAlong(x: Vector, eps: real, s: Stats, wdy: Vector, dx: Vector, c1: real, c2: real, t: Vector, d: Stats)
    requires |x| == |t| && Formula(x, s.mean, s.rstd, wdy, dx, c1, c2)
    requires Statistics(x, eps, s) && ChangesAlong(x, eps, s, t, d)
    ensures Inner(dx, t) == Inner(wdy, XhatAlong(x, s, t, d))
  {
    hide Inner, Sum, Combine, XhatAlong, DxOf, ByDeviation, ByShift, ProductAlong, Formula, Statistics, ChangesAlong;
    Means(x, eps, s, wdy, dx, c1, c2, t, d);
    ByFormula(x, s.mean, s.rstd, wdy, dx, c1, c2, t);
    ByChanges(x, s, wdy, t, d);
    RstdAlong(x, eps, s, t, d);
    BothSides(|x| as real, s.rstd, Inner(wdy, t), c1, c2, Sum(wdy), Inner(Minus(x, s.mean), wdy), Inner(Minus(x, s.mean), t), d.mean, d.rstd, Sum(t));
  }

  /** The formula computes the gradient. */
  lemma FormulaIsGradient(x: Vector, mean: real, rstd: real, wdy: Vector, dx: Vector, c1: real, c2: real)
    requires Formula(x, mean, rstd, wdy, dx, c1, c2)
    ensures IsGradient(x, mean, rstd, wdy, dx)
  {
    hide Statistics, ChangesAlong, Inner, Formula, XhatAlong;
    SameLengths(x, mean, rstd, wdy, dx, c1, c2);
    forall eps: real, variance: real, t: Vector, d: Stats | |t| == |x|
      ensures GradientAlong(x, eps, Stats(mean, variance, rstd), wdy, dx, t, d)
    {
      var s := Stats(mean, variance, rstd);
      if Statistics(x, eps, s) && ChangesAlong(x, eps, s, t, d) {
        FormulaAlong(x, eps, s, wdy, dx, c1, c2, t, d);
      }
    }
  }

  lemma SameLengths(x: Vector, mean: real, rstd: real, wdy: Vector, dx: Vector, c1: real, c2: real)
    requires Formula(x, mean, rstd, wdy, dx, c1, c2)
    ensures |x| == |wdy| == |dx|
  {
  }

  // ---------- the program of one row ----------

  function Weighted(w: Vector, dy: Vector): (r: Vector)
    requires |w| == |dy|
    ensures |r| == |w| && forall j :: 0 <= j < |r| ==> r[j] == w[j] * dy[j]
  {
    seq(|w|, j requires 0 <= j < |w| => w[j] * dy[j])
  }

  // Where the mask is off, xhat and wdy are 0.
  function Lane(a: Vector, c: nat): real {
    if c < |a| then a[c] else 0.0
  }

  function Prefix(a: Vector, k: nat): Vector {
    if k < |a| then a[..k] else a
  }

  // One more lane.
  lemma LaneAdds(x: Vector, mean: real, rstd: real, wdy: Vector, k: nat)
    requires |x| == |wdy|
    ensures var dev := Minus(x, mean);
            rstd * Inner(Prefix(dev, k + 1), Prefix(wdy, k + 1)) == rstd * Inner(Prefix(dev, k), Prefix(wdy, k)) + Lane(dev, k) * rstd * Lane(wdy, k)
    ensures Sum(Prefix(wdy, k + 1)) == Sum(Prefix(wdy, k)) + Lane(wdy, k)
  {
    var dev := Minus(x, mean);
    if k < |x| {
      assert Prefix(dev, k + 1)[..k] == Prefix(dev, k) && Prefix(wdy, k + 1)[..k] == Prefix(wdy, k);
      Regroup(rstd, Inner(Prefix(dev, k), Prefix(wdy, k)), dev[k] * wdy[k]);
      assert rstd * (dev[k] * wdy[k]) == dev[k] * rstd * wdy[k];
    }
  }

  // c1 * n and c2 * n: the sums over all lanes of a block.
  method BlockSums(x: Vector, mean: real, rstd: real, wdy: Vector, block: nat) returns (s1: real, s2: real)
    requires |x| == |wdy| <= block
    ensures s1 == rstd * Inner(Minus(x, mean), wdy) && s2 == Sum(wdy)
  {
    hide Inner, Sum, Lane;
    s1, s2 := 0.0, 0.0;
    NoLanes(x, mean, rstd, wdy);
    for k := 0 to block
      invariant s1 == rstd * Inner(Prefix(Minus(x, mean), k), Prefix(wdy, k)) && s2 == Sum(Prefix(wdy, k))
    {
      LaneAdds(x, mean, rstd, wdy, k);
      var xhat := Lane(Minus(x, mean), k) * rstd;
      s1 := s1 + xhat * Lane(wdy, k);
      s2 := s2 + Lane(wdy, k);
    }
  }

  lemma NoLanes(x: Vector, mean: real, rstd: real, wdy: Vector)
    requires |x| == |wdy|
    ensures rstd * Inner(Prefix(Minus(x, mean), 0), Prefix(wdy, 0)) == 0.0 && Sum(Prefix(wdy, 0)) == 0.0
  {
    assert |Prefix(Minus(x, mean), 0)| == 0 && |Prefix(wdy, 0)| == 0;
  }

  /** What a row's program stores to DX is the gradient of its row. */
  method RowGradient(x: Vector, dy: Vector, w: Vector, mean: real, rstd: real, block: nat) returns (dx: Vector)
    requires |x| == |dy| == |w| <= block
    ensures IsGradient(x, mean, rstd, Weighted(w, dy), dx)
  {
    hide Inner, Sum, IsGradient, DxOf;
    var n, wdy := |x|, Weighted(w, dy);
    if n == 0 {
      NothingToChange(x, mean, rstd, wdy);
      return [];
    }
    var s1, s2 := BlockSums(x, mean, rstd, wdy, block);
    var c1, c2 := s1 / (n as real), s2 / (n as real);
    QuotientTimes(s1, n as real);
    QuotientTimes(s2, n as real);
    dx := [];
    for c := 0 to n
      invariant |dx| == c && forall j :: 0 <= j < c ==> dx[j] == DxOf(wdy[j], Minus(x, mean)[j], rstd, c1, c2)
    {
      dx := dx + [DxOf(wdy[c], x[c] - mean, rstd, c1, c2)];
    }
    FormulaIsGradient(x, mean, rstd, wdy, dx, c1, c2);
  }

  lemma QuotientTimes(s: real, n: real)
    requires n != 0.0
    ensures s / n * n == s
  {
  }

  lemma NothingToChange(x: Vector, mean: real, rstd: real, wdy: Vector)
    requires |x| == |wdy| == 0
    ensures IsGradient(x, mean, rstd, wdy, [])
  {
  }

  // ---------- there is only one gradient ----------

  function Direction(n: nat, k: nat): (t: Vector)
    ensures |t| == n && forall j :: 0 <= j < n ==> t[j] == if j == k then 1.0 else 0.0
  {
    seq(n, j => if j == k then 1.0 else 0.0)
  }

  lemma {:induction false} InnerDirection(a: Vector, t: Vector, k: nat)
    requires |a| == |t| && k < |a| && forall j :: 0 <= j < |t| ==> t[j] == if j == k then 1.0 else 0.0
    ensures Inner(a, t) == a[k]
  {
    var n := |a| - 1;
    if k < n {
      InnerDirection(a[..n], t[..n], k);
    } else {
      InnerNothing(a[..n], t[..n]);
    }
  }

  lemma {:induction false} InnerNothing(a: Vector, t: Vector)
    requires |a| == |t| && forall j :: 0 <= j < |t| ==> t[j] == 0.0
    ensures Inner(a, t) == 0.0
  {
    if |a| > 0 {
      InnerNothing(a[..|a| - 1], t[..|t| - 1]);
    }
  }

  // Along every direction the statistics change somehow.
  lemma SomeChange(x: Vector, eps: real, s: Stats, t: Vector) returns (d: Stats)
    requires |x| == |t| && Statistics(x, eps, s)
    ensures ChangesAlong(x, eps, s, t, d)
  {
    hide Inner, Sum;
    var n := |x| as real;
    var dm := Sum(t) / n;
    var e := 2.0 * Inner(Minus(x, s.mean), Minus(t, dm));
    var dv := e / n;
    QuotientTimes(Sum(t), n);
    QuotientTimes(e, n);
    d := Stats(dm, dv, -(s.rstd * s.rstd * s.rstd * dv / 2.0));
    RstdEquation(s.rstd, s.variance + eps, dv, d.rstd);
  }

  lemma RstdEquation(r: real, v: real, dv: real, dr: real)
    requires r * r * v == 1.0 && dr == -(r * r * r * dv / 2.0)
    ensures 2.0 * r * dr * v + r * r * dv == 0.0
  {
    var g := r * r * dv;
    assert 2.0 * dr == -(r * g);
    assert 2.0 * r * dr * v == (r * v) * (2.0 * dr);
    assert (r * v) * (r * g) == (r * r * v) * g;
  }

  /** A row has only one gradient. */
  lemma GradientIsUnique(x: Vector, eps: real, s: Stats, wdy: Vector, dx1: Vector, dx2: Vector)
    requires Statistics(x, eps, s)
    requires IsGradient(x, s.mean, s.rstd, wdy, dx1) && IsGradient(x, s.mean, s.rstd, wdy, dx2)
    ensures dx1 == dx2
  {
    hide Inner, Sum, Statistics, ChangesAlong, XhatAlong;
    forall k | 0 <= k < |x| ensures dx1[k] == dx2[k] {
      var t := Direction(|x|, k);
      var d := SomeChange(x, eps, s, t);
      assert s == Stats(s.mean, s.variance, s.rstd);
      assert GradientAlong(x, eps, s, wdy, dx1, t, d) && GradientAlong(x, eps, s, wdy, dx2, t, d);
      InnerDirection(dx1, t, k);
      InnerDirection(dx2, t, k);
    }
  }

  // ---------- in terms of the output ----------

  // How the output row (x - mean) * rstd * w + b changes, when x and its statistics do.
  ghost function OutputAlong(x: Vector, s: Stats, w: Vector, t: Vector, d: Stats): (r: Vector)
    requires |x| == |t| == |w|
    ensures |r| == |x| && forall j :: 0 <= j < |r| ==> r[j] == ((t[j] - d.mean) * s.rstd + (x[j] - s.mean) * d.rstd) * w[j]
  {
    seq(|x|, j requires 0 <= j < |x| => ((t[j] - d.mean) * s.rstd + (x[j] - s.mean) * d.rstd) * w[j])
  }

  ghost predicate LossAlong(x: Vector, eps: real, s: Stats, w: Vector, dy: Vector, dx: Vector, t: Vector, d: Stats)
    requires |x| == |w| == |dy| == |dx|
  {
    |t| == |x| && Statistics(x, eps, s) && ChangesAlong(x, eps, s, t, d) ==> Inner(dx, t) == Inner(dy, OutputAlong(x, s, w, t, d))
  }

  /** The same gradient, in terms of the gradient `dy` of the output and the weights. */
  ghost predicate IsInputGradient(x: Vector, mean: real, rstd: real, w: Vector, dy: Vector, dx: Vector) {
    && |x| == |w| == |dy| == |dx|
    && forall eps: real, variance: real, t: Vector, d: Stats :: |t| == |x| ==>
         LossAlong(x, eps, Stats(mean, variance, rstd), w, dy, dx, t, d)
  }

  lemma {:induction false} InnerMoves(w: Vector, dy: Vector, p: Vector, v: Vector, u: Vector)
    requires |w| == |dy| == |p| == |v| == |u|
    requires forall j :: 0 <= j < |u| ==> u[j] == v[j] * w[j] && p[j] == w[j] * dy[j]
    ensures Inner(p, v) == Inner(dy, u)
  {
    if |w| > 0 {
      var n := |w| - 1;
      InnerMoves(w[..n], dy[..n], p[..n], v[..n], u[..n]);
      MovesFactor(w[n], dy[n], v[n]);
    }
  }

  lemma MovesFactor(w: real, dy: real, v: real)
    ensures w * dy * v == dy * (v * w)
  {
  }

  lemma GradientOfLoss(x: Vector, mean: real, rstd: real, w: Vector, dy: Vector, dx: Vector)
    requires |x| == |w| == |dy| && IsGradient(x, mean, rstd, Weighted(w, dy), dx)
    ensures IsInputGradient(x, mean, rstd, w, dy, dx)
  {
    hide Statistics, ChangesAlong, Inner;
    forall eps: real, variance: real, t: Vector, d: Stats | |t| == |x|
      ensures LossAlong(x, eps, Stats(mean, variance, rstd), w, dy, dx, t, d)
    {
      var s := Stats(mean, variance, rstd);
      assert GradientAlong(x, eps, s, Weighted(w, dy), dx, t, d);
      InnerMoves(w, dy, Weighted(w, dy), XhatAlong(x, s, t, d), OutputAlong(x, s, w, t, d));
    }
  }
}
