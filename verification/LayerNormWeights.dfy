/** The weight and bias gradients of layer norm (python/tutorials/05-layer-norm.py:46-92, 172-174), against
the forward pass. */
module LayerNormWeights {
  import opened LayerNormGradient

  /** m rows and n columns of inputs and output gradients, the weights, and each row's mean and 1/std. */
  datatype Inputs = Inputs(m: nat, n: nat, x: seq<seq<real>>, dy: seq<seq<real>>, w: seq<real>, mean: seq<real>, rstd: seq<real>) {
    ghost predicate Valid() {
      && |x| == |dy| == |mean| == |rstd| == m && |w| == n
      && forall r :: 0 <= r < m ==> |x[r]| == n && |dy[r]| == n
    }

    // The normalized input.
    function Xhat(r: nat, c: nat): real
      requires Valid() && r < m && c < n
    {
      (x[r][c] - mean[r]) * rstd[r]
    }

    // What row r adds to column c of the weight gradient (c < n) or bias gradient (c - n).
    function Partial(r: nat, c: nat): real
      requires Valid() && r < m && c < 2 * n
    {
      if c < n then dy[r][c] * Xhat(r, c) else dy[r][c - n]
    }

    // The gradients: the normalized input times the output gradient, and the output gradient.
    ghost function WeightGradient(c: nat, k: nat): real
      requires Valid() && c < n && k <= m
    {
      if k == 0 then 0.0 else WeightGradient(c, k - 1) + dy[k - 1][c] * Xhat(k - 1, c)
    }

    ghost function BiasGradient(c: nat, k: nat): real
      requires Valid() && c < n && k <= m
    {
      if k == 0 then 0.0 else BiasGradient(c, k - 1) + dy[k - 1][c]
    }
  }

  // ---------- the loss as a function of weights and biases ----------

  // One element of the output.
  ghost function Forward(x: real, mean: real, rstd: real, w: real, b: real): real {
    (x - mean) * rstd * w + b
  }

  // The first k columns' part of the loss, to first order in the output: dy * y.
  ghost function RowLoss(a: Inputs, r: nat, w: Vector, b: Vector, k: nat): real
    requires a.Valid() && r < a.m && |w| == |b| == a.n && k <= a.n
  {
    if k == 0 then 0.0
    else RowLoss(a, r, w, b, k - 1) + a.dy[r][k - 1] * Forward(a.x[r][k - 1], a.mean[r], a.rstd[r], w[k - 1], b[k - 1])
  }

  ghost function Loss(a: Inputs, w: Vector, b: Vector, k: nat): real
    requires a.Valid() && |w| == |b| == a.n && k <= a.m
  {
    if k == 0 then 0.0 else Loss(a, w, b, k - 1) + RowLoss(a, k - 1, w, b, a.n)
  }

  function Plus(u: Vector, t: Vector): (r: Vector)
    requires |u| == |t|
    ensures |r| == |u| && forall j :: 0 <= j < |r| ==> r[j] == u[j] + t[j]
  {
    seq(|u|, j requires 0 <= j < |u| => u[j] + t[j])
  }

  ghost predicate WeightsAlong(a: Inputs, dw: Vector, db: Vector, w: Vector, b: Vector, tw: Vector, tb: Vector)
    requires a.Valid() && |dw| == |db| == |w| == |b| == |tw| == |tb| == a.n
  {
    Loss(a, Plus(w, tw), Plus(b, tb), a.m) - Loss(a, w, b, a.m) == Inner(dw, tw) + Inner(db, tb)
  }

  /** `dw` and `db` are the gradients: from any weights and biases and along every direction, the loss
      changes by the inner products with them. */
  ghost predicate AreWeightGradients(a: Inputs, dw: Vector, db: Vector)
    requires a.Valid()
  {
    && |dw| == |db| == a.n
    && forall w: Vector, b: Vector, tw: Vector, tb: Vector :: |w| == |b| == |tw| == |tb| == a.n ==>
         WeightsAlong(a, dw, db, w, b, tw, tb)
  }

  // ---------- the sums over the rows are the gradients ----------

  ghost function RowWeights(a: Inputs, r: nat): (v: Vector)
    requires a.Valid() && r < a.m
    ensures |v| == a.n && forall c :: 0 <= c < a.n ==> v[c] == a.dy[r][c] * a.Xhat(r, c)
  {
    seq(a.n, c requires 0 <= c < a.n => a.dy[r][c] * a.Xhat(r, c))
  }

  lemma OneElement(x: real, mean: real, rstd: real, w: real, b: real, tw: real, tb: real, dy: real, u: real)
    requires u == dy * ((x - mean) * rstd)
    ensures dy * Forward(x, mean, rstd, w + tw, b + tb) == dy * Forward(x, mean, rstd, w, b) + u * tw + dy * tb
  {
    var h := (x - mean) * rstd;
    assert h * (w + tw) == h * w + h * tw;
    assert dy * (h * w + h * tw + (b + tb)) == dy * (h * w + b) + dy * (h * tw) + dy * tb;
    assert dy * (h * tw) == dy * h * tw;
  }

  lemma RowWeightIs(a: Inputs, r: nat, c: nat)
    requires a.Valid() && r < a.m && c < a.n
    ensures RowWeights(a, r)[c] == a.dy[r][c] * ((a.x[r][c] - a.mean[r]) * a.rstd[r])
  {
  }

  lemma {:induction false} RowChanges(a: Inputs, r: nat, w: Vector, b: Vector, tw: Vector, tb: Vector, k: nat)
    requires a.Valid() && r < a.m && |w| == |b| == |tw| == |tb| == a.n && k <= a.n
    ensures RowLoss(a, r, Plus(w, tw), Plus(b, tb), k) ==
            RowLoss(a, r, w, b, k) + Inner(RowWeights(a, r)[..k], tw[..k]) + Inner(a.dy[r][..k], tb[..k])
  {
    if k > 0 {
      hide Forward, Inner, RowWeights;
      var v := RowWeights(a, r);
      RowChanges(a, r, w, b, tw, tb, k - 1);
      RowWeightIs(a, r, k - 1);
      OneElement(a.x[r][k - 1], a.mean[r], a.rstd[r], w[k - 1], b[k - 1], tw[k - 1], tb[k - 1], a.dy[r][k - 1], v[k - 1]);
      InnerSnoc(v, tw, k);
      InnerSnoc(a.dy[r], tb, k);
    }
  }

  lemma InnerSnoc(u: Vector, t: Vector, k: nat)
    requires 0 < k <= |u| == |t|
    ensures Inner(u[..k], t[..k]) == Inner(u[..k - 1], t[..k - 1]) + u[k - 1] * t[k - 1]
  {
    assert u[..k][..k - 1] == u[..k - 1] && t[..k][..k - 1] == t[..k - 1];
  }

  ghost function WeightSums(a: Inputs, k: nat): (v: Vector)
    requires a.Valid() && k <= a.m
    ensures |v| == a.n && forall c :: 0 <= c < a.n ==> v[c] == a.WeightGradient(c, k)
  {
    seq(a.n, c requires 0 <= c < a.n => a.WeightGradient(c, k))
  }

  ghost function BiasSums(a: Inputs, k: nat): (v: Vector)
    requires a.Valid() && k <= a.m
    ensures |v| == a.n && forall c :: 0 <= c < a.n ==> v[c] == a.BiasGradient(c, k)
  {
    seq(a.n, c requires 0 <= c < a.n => a.BiasGradient(c, k))
  }

  lemma InnerAdds(c: Vector, a: Vector, b: Vector, t: Vector)
    requires |a| == |b| == |c| == |t| && forall j :: 0 <= j < |c| ==> c[j] == a[j] + b[j]
    ensures Inner(c, t) == Inner(a, t) + Inner(b, t)
  {
    hide Inner, Sum;
    forall j | 0 <= j < |c| ensures c[j] == Combine(1.0, a[j], 1.0, b[j], 0.0, 1.0) {
    }
    InnerCombines(c, a, b, 1.0, 1.0, 0.0, t);
  }

  lemma {:induction false} LossChanges(a: Inputs, w: Vector, b: Vector, tw: Vector, tb: Vector, k: nat)
    requires a.Valid() && |w| == |b| == |tw| == |tb| == a.n && k <= a.m
    ensures Loss(a, Plus(w, tw), Plus(b, tb), k) == Loss(a, w, b, k) + Inner(WeightSums(a, k), tw) + Inner(BiasSums(a, k), tb)
  {
    hide RowLoss, Inner;
    if k > 0 {
      LossChanges(a, w, b, tw, tb, k - 1);
      RowChanges(a, k - 1, w, b, tw, tb, a.n);
      WholeRow(RowWeights(a, k - 1), tw, a.n);
      WholeRow(a.dy[k - 1], tb, a.n);
      InnerAdds(WeightSums(a, k), WeightSums(a, k - 1), RowWeights(a, k - 1), tw);
      InnerAdds(BiasSums(a, k), BiasSums(a, k - 1), a.dy[k - 1], tb);
    } else {
      NoRows(a, tw, tb);
    }
  }

  lemma WholeRow(u: Vector, t: Vector, n: nat)
    requires |u| == |t| == n
    ensures u[..n] == u && t[..n] == t
  {
  }

  lemma NoRows(a: Inputs, tw: Vector, tb: Vector)
    requires a.Valid() && |tw| == |tb| == a.n
    ensures Inner(WeightSums(a, 0), tw) == 0.0 && Inner(BiasSums(a, 0), tb) == 0.0
  {
    InnerCommutes(WeightSums(a, 0), tw);
    InnerCommutes(BiasSums(a, 0), tb);
    InnerNothing(tw, WeightSums(a, 0));
    InnerNothing(tb, BiasSums(a, 0));
  }

  /** The sums that the second kernel delivers are the gradients. */
  lemma SumsAreGradients(a: Inputs, dw: Vector, db: Vector)
    requires a.Valid() && |dw| == |db| == a.n
    requires forall c :: 0 <= c < a.n ==> dw[c] == a.WeightGradient(c, a.m) && db[c] == a.BiasGradient(c, a.m)
    ensures AreWeightGradients(a, dw, db)
  {
    hide Loss, Inner;
    assert dw == WeightSums(a, a.m) && db == BiasSums(a, a.m);
    forall w: Vector, b: Vector, tw: Vector, tb: Vector | |w| == |b| == |tw| == |tb| == a.n
      ensures WeightsAlong(a, dw, db, w, b, tw, tb)
    {
      LossChanges(a, w, b, tw, tb, a.m);
    }
  }

  /** There are no other gradients. */
  lemma WeightGradientsAreUnique(a: Inputs, dw1: Vector, db1: Vector, dw2: Vector, db2: Vector)
    requires a.Valid() && AreWeightGradients(a, dw1, db1) && AreWeightGradients(a, dw2, db2)
    ensures dw1 == dw2 && db1 == db2
  {
    hide Loss, Inner;
    var zero: Vector := seq(a.n, j => 0.0);
    InnerNothing(dw1, zero);
    InnerNothing(dw2, zero);
    InnerNothing(db1, zero);
    InnerNothing(db2, zero);
    forall k | 0 <= k < a.n ensures dw1[k] == dw2[k] && db1[k] == db2[k] {
      var t := Direction(a.n, k);
      assert WeightsAlong(a, dw1, db1, zero, zero, t, zero) && WeightsAlong(a, dw2, db2, zero, zero, t, zero);
      assert WeightsAlong(a, dw1, db1, zero, zero, zero, t) && WeightsAlong(a, dw2, db2, zero, zero, zero, t);
      InnerDirection(dw1, t, k);
      InnerDirection(dw2, t, k);
      InnerDirection(db1, t, k);
      InnerDirection(db2, t, k);
    }
  }

  // ---------- the normalized row ----------

  lemma {:induction false} SumScaled(u: Vector, v: Vector, r: real)
    requires |u| == |v| && forall j :: 0 <= j < |u| ==> u[j] == v[j] * r
    ensures Sum(u) == Sum(v) * r
  {
    if |u| > 0 {
      var n := |u| - 1;
      SumScaled(u[..n], v[..n], r);
      Regroup(r, Sum(v[..n]), v[n]);
    }
  }

  lemma {:induction false} SquareScaled(u: Vector, v: Vector, r: real)
    requires |u| == |v| && forall j :: 0 <= j < |u| ==> u[j] == v[j] * r
    ensures Inner(u, u) == r * r * Inner(v, v)
  {
    if |u| > 0 {
      var n := |u| - 1;
      SquareScaled(u[..n], v[..n], r);
      Regroup(r * r, Inner(v[..n], v[..n]), v[n] * v[n]);
      SquareOf(v[n], r);
    }
  }

  lemma SquareOf(v: real, r: real)
    ensures v * r * (v * r) == r * r * (v * v)
  {
  }

  ghost function NormalizedOf(a: Inputs, r: nat): (v: Vector)
    requires a.Valid() && r < a.m
    ensures |v| == a.n && forall c :: 0 <= c < a.n ==> v[c] == a.Xhat(r, c)
  {
    seq(a.n, c requires 0 <= c < a.n => a.Xhat(r, c))
  }

  /** The normalized row has mean 0, and its square is variance / (variance + eps) in the mean. */
  lemma NormalizedRow(a: Inputs, r: nat, eps: real, variance: real)
    requires a.Valid() && r < a.m && Statistics(a.x[r], eps, Stats(a.mean[r], variance, a.rstd[r]))
    ensures Sum(NormalizedOf(a, r)) == 0.0
    ensures Inner(NormalizedOf(a, r), NormalizedOf(a, r)) * (variance + eps) == variance * (a.n as real)
  {
    hide Sum, Inner, Statistics;
    NormalizedVector(a.x[r], eps, Stats(a.mean[r], variance, a.rstd[r]), NormalizedOf(a, r));
  }

  lemma NormalizedVector(x: Vector, eps: real, s: Stats, xhat: Vector)
    requires Statistics(x, eps, s) && |xhat| == |x| && forall j :: 0 <= j < |x| ==> xhat[j] == (x[j] - s.mean) * s.rstd
    ensures Sum(xhat) == 0.0 && Inner(xhat, xhat) * (s.variance + eps) == s.variance * (|x| as real)
  {
    hide Sum, Inner;
    var dev := Minus(x, s.mean);
    SumMinus(x, s.mean);
    SumScaled(xhat, dev, s.rstd);
    SquareScaled(xhat, dev, s.rstd);
    Cancels(s.rstd, s.variance + eps, Inner(dev, dev));
  }

  lemma Cancels(r: real, v: real, q: real)
    requires r * r * v == 1.0
    ensures r * r * q * v == q
  {
    assert r * r * q * v == (r * r * v) * q;
  }
}
