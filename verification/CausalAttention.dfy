/** How far the finite bias of the causal mask is from leaving future keys out
(python/tutorials/06-fused-attention.py:50-55, 158-189). */
module CausalAttention {
  import opened Softmax
  import opened Attention

  // Key j as query i sees it, without a mask.
  ghost function Plain(h: Head, scale: real, i: nat, j: nat): (c: Column)
    requires h.Valid()
    ensures |c.value| == h.d
  {
    Column(Dot(h.query(i), h.key(j)) * scale, h.value(j))
  }

  // The first n keys.
  ghost function PlainColumns(h: Head, scale: real, i: nat, n: nat): (c: seq<Column>)
    requires h.Valid()
    ensures |c| == n && (forall j :: 0 <= j < n ==> c[j] == Plain(h, scale, i, j)) && Wide(c, h.d)
  {
    var c := seq(n, j requires 0 <= j < n => Plain(h, scale, i, j));
    assert forall j :: 0 <= j < n ==> c[j] == Plain(h, scale, i, j) && |c[j].value| == h.d;
    c
  }

  // ---------- one key ----------

  /** Keys up to the query are not masked, later ones lose 1000000 of their score. */
  lemma MaskedKey(math: Math, h: Head, scale: real, i: nat, j: nat)
    requires math.Laws() && h.Valid()
    ensures j <= i ==> Scored(h, scale, 2, i, j) == Plain(h, scale, i, j)
    ensures j > i ==> Scored(h, scale, 2, i, j).score == Plain(h, scale, i, j).score - 1000000.0
    ensures Scored(h, scale, 2, i, j).value == h.value(j)
  {
    hide math.Laws;
    if j > i {
      MaskedWeight(math, h, scale, i, j);
    }
  }

  // ---------- products of reals ----------

  function Times(x: real, y: real): real {
    x * y
  }

  lemma TimesIs(x: real, y: real)
    ensures Times(x, y) == x * y
  {
  }

  lemma TimesAdds(x: real, y: real, p: real)
    ensures Times(x + y, p) == Times(x, p) + Times(y, p) && Times(p, x + y) == Times(p, x) + Times(p, y)
    ensures Times(x - y, p) == Times(x, p) - Times(y, p) && Times(-x, p) == -Times(x, p)
  {
  }

  lemma TimesGrows(x: real, y: real, p: real)
    requires x <= y && p >= 0.0
    ensures Times(x, p) <= Times(y, p) && Times(p, x) <= Times(p, y)
  {
    assert (y - x) * p >= 0.0;
  }

  lemma TimesCancels(x: real, y: real, p: real)
    requires p > 0.0 && Times(x, p) <= Times(y, p)
    ensures x <= y
  {
    if x > y {
      PositiveTimes(x - y, p);
    }
  }

  lemma PositiveTimes(x: real, p: real)
    requires x > 0.0 && p > 0.0
    ensures x * p > 0.0
  {
  }

  lemma TimesAssociates(x: real, y: real, z: real)
    ensures Times(Times(x, y), z) == Times(x, Times(y, z))
  {
  }

  lemma Quotient(w: real, m: real)
    requires m > 0.0
    ensures Times(w / m, m) == w
  {
  }

  // ---------- bounds on sums ----------

  lemma {:induction false} MassAtMost(math: Math, cols: seq<Column>, t: real)
    requires math.Laws() && forall j :: 0 <= j < |cols| ==> cols[j].score <= t
    ensures Mass(math, cols, 0.0) <= Times(|cols| as real, math.exp2(t))
  {
    hide math.Laws;
    if cols != [] {
      MassAtMost(math, cols[..|cols| - 1], t);
      math.Grows(cols[|cols| - 1].score - 0.0, t);
      hide Times;
      TimesAdds((|cols| - 1) as real, 1.0, math.exp2(t));
      TimesIs(1.0, math.exp2(t));
    } else {
      TimesIs(0.0, math.exp2(t));
    }
  }

  lemma LastWeighs(math: Math, cols: seq<Column>)
    requires math.Laws() && cols != []
    ensures Mass(math, cols, 0.0) >= math.exp2(cols[|cols| - 1].score)
  {
    hide math.Laws;
    MassPositive(math, cols[..|cols| - 1], 0.0);
    assert cols[|cols| - 1].score - 0.0 == cols[|cols| - 1].score;
  }

  ghost predicate ValuesWithin(cols: seq<Column>, d: nat, v: real) {
    forall j :: 0 <= j < |cols| ==> d < |cols[j].value| && -v <= cols[j].value[d] <= v
  }

  lemma {:induction false} WeightedWithin(math: Math, cols: seq<Column>, d: nat, v: real)
    requires math.Laws() && ValuesWithin(cols, d, v)
    ensures forall j :: 0 <= j < |cols| ==> d < |cols[j].value|
    ensures -Times(v, Mass(math, cols, 0.0)) <= Weighted(math, cols, 0.0, d) <= Times(v, Mass(math, cols, 0.0))
  {
    hide math.Laws, Times;
    if cols != [] {
      var front, last := cols[..|cols| - 1], cols[|cols| - 1];
      WeightedWithin(math, front, d, v);
      math.Positive(last.score - 0.0);
      TermWithin(math.exp2(last.score - 0.0), last.value[d], v);
      TimesAdds(Mass(math, front, 0.0), math.exp2(last.score - 0.0), v);
    } else {
      TimesIs(v, 0.0);
    }
  }

  lemma TermWithin(e: real, x: real, v: real)
    requires e > 0.0 && -v <= x <= v
    ensures -Times(v, e) <= e * x <= Times(v, e)
  {
    assert e * (v - x) >= 0.0 && e * (v + x) >= 0.0;
  }

  // Adding little mass moves a weighted mean little.
  lemma MeansClose(wk: real, wm: real, mk: real, mm: real, v: real, e: real)
    requires mk > 0.0 && mm >= 0.0 && v >= 0.0 && mm <= Times(e, mk)
    requires -Times(v, mk) <= wk <= Times(v, mk) && -Times(v, mm) <= wm <= Times(v, mm)
    ensures -(2.0 * Times(v, e)) <= (wk + wm) / (mk + mm) - wk / mk <= 2.0 * Times(v, e)
  {
    hide Times;
    var a, b, m := wk / mk, (wk + wm) / (mk + mm), mk + mm;
    Quotient(wk, mk);
    Quotient(wk + wm, m);
    TimesCancels(a, v, mk);
    TimesAdds(v, 0.0, mk);
    TimesCancels(-v, a, mk);
    TimesAdds(b, a, m);
    TimesAdds(mk, mm, a);
    TimesAdds(v, 0.0, mm);
    TimesGrows(a, v, mm);
    TimesGrows(-v, a, mm);
    var t := MassLittle(mk, mm, v, e);
    TimesAdds(t, t, m);
    TimesAdds(t + t, 0.0, m);
    TimesCancels(b - a, t + t, m);
    TimesCancels(-(t + t), b - a, m);
  }

  lemma MassLittle(mk: real, mm: real, v: real, e: real) returns (t: real)
    requires mk > 0.0 && mm >= 0.0 && v >= 0.0 && mm <= Times(e, mk)
    ensures t == Times(v, e) && Times(v, mm) <= Times(t, mk + mm)
  {
    hide Times;
    t := Times(v, e);
    TimesIs(0.0, mk);
    TimesCancels(0.0, e, mk);
    TimesIs(v, 0.0);
    TimesGrows(0.0, e, v);
    TimesGrows(mm, Times(e, mk), v);
    TimesAssociates(v, e, mk);
    TimesAdds(mk, mm, t);
    TimesIs(0.0, mm);
    TimesGrows(0.0, t, mm);
  }

  // ---------- one row ----------

  // The scores of the first n keys, before the mask, differ by at most b.
  ghost predicate Spread(h: Head, scale: real, i: nat, n: nat, b: real)
    requires h.Valid()
  {
    forall j, k :: 0 <= j < n && 0 <= k < n ==> Plain(h, scale, i, j).score <= Plain(h, scale, i, k).score + b
  }

  // What row i visits in a tile that ends at n: the keys up to the query, and the masked ones.
  lemma TwoParts(math: Math, h: Head, scale: real, i: nat, n: nat)
    requires math.Laws() && h.Valid() && i < n
    ensures ColumnsFrom(h, scale, 2, i, 0, n) == PlainColumns(h, scale, i, i + 1) + ColumnsFrom(h, scale, 2, i, i + 1, n - i - 1)
  {
    hide math.Laws, Scored, Plain;
    ColumnsAppend(h, scale, 2, i, 0, i + 1, n - i - 1);
    var seen, plain := ColumnsFrom(h, scale, 2, i, 0, i + 1), PlainColumns(h, scale, i, i + 1);
    forall j | 0 <= j < i + 1 ensures seen[j] == plain[j] {
      MaskedKey(math, h, scale, i, j);
    }
    assert seen == plain;
  }

  /** The masked keys of a row weigh next to nothing beside those up to the query. */
  lemma MaskedMass(math: Math, h: Head, scale: real, i: nat, n: nat, b: real)
    requires math.Laws() && h.Valid() && i < n && Spread(h, scale, i, n, b)
    ensures Mass(math, ColumnsFrom(h, scale, 2, i, i + 1, n - i - 1), 0.0)
            <= Times(Times((n - i - 1) as real, math.exp2(b - 1000000.0)), Mass(math, PlainColumns(h, scale, i, i + 1), 0.0))
  {
    hide math.Laws, Scored, Plain, Mass, Times;
    var masked, kept := ColumnsFrom(h, scale, 2, i, i + 1, n - i - 1), PlainColumns(h, scale, i, i + 1);
    var s := Plain(h, scale, i, i).score;
    forall j | 0 <= j < |masked| ensures masked[j].score <= s + (b - 1000000.0) {
      MaskedKey(math, h, scale, i, i + 1 + j);
      assert Plain(h, scale, i, i + 1 + j).score <= Plain(h, scale, i, i).score + b;
    }
    MassAtMost(math, masked, s + (b - 1000000.0));
    math.Adds(s, b - 1000000.0);
    assert math.exp2(s + (b - 1000000.0)) == Times(math.exp2(s), math.exp2(b - 1000000.0)) by {
      TimesIs(math.exp2(s), math.exp2(b - 1000000.0));
    }
    LastWeighs(math, kept);
    assert kept[i] == Plain(h, scale, i, i);
    math.Positive(b - 1000000.0);
    TimesIs(math.exp2(s), math.exp2(b - 1000000.0));
    assert |kept| == i + 1 && |masked| == n - i - 1;
    Scales(|masked| as real, math.exp2(b - 1000000.0), math.exp2(s), Mass(math, kept, 0.0));
  }

  lemma Scales(n: real, e: real, w: real, m: real)
    requires n >= 0.0 && e > 0.0 && w <= m
    ensures Times(n, Times(w, e)) <= Times(Times(n, e), m)
  {
    assert n * e >= 0.0;
    assert n * e * (m - w) >= 0.0;
    assert n * e * (m - w) == n * e * m - n * (w * e);
  }

  // 2 * v * bm * 2^(b - 1000000)
  function Error(math: Math, bm: nat, v: real, b: real): real {
    2.0 * (v * (bm as real * math.exp2(b - 1000000.0)))
  }

  lemma RowIsClose(math: Math, h: Head, scale: real, i: nat, n: nat, bm: nat, d: nat, v: real, b: real)
    requires math.Laws() && h.Valid() && i < n <= i + bm && d < h.d && v >= 0.0 && Spread(h, scale, i, n, b)
    requires forall j :: 0 <= j < n ==> |h.value(j)| == h.d && -v <= h.value(j)[d] <= v
    ensures var cols, kept := ColumnsFrom(h, scale, 2, i, 0, n), PlainColumns(h, scale, i, i + 1);
            && Mass(math, cols, 0.0) > 0.0 && Mass(math, kept, 0.0) > 0.0
            && -Error(math, bm, v, b) <= Softmax.Attention(math, cols, d) - Softmax.Attention(math, kept, d) <= Error(math, bm, v, b)
  {
    hide math.Laws, Mass, Weighted, Scored, Plain, Times, Spread, Error;
    var kept, masked := PlainColumns(h, scale, i, i + 1), ColumnsFrom(h, scale, 2, i, i + 1, n - i - 1);
    TwoParts(math, h, scale, i, n);
    MassAppend(math, kept, masked, 0.0);
    WeightedAppend(math, kept, masked, 0.0, d);
    MassPositive(math, kept, 0.0);
    MassPositive(math, masked, 0.0);
    MassShare(math, h, scale, i, n, bm, b);
    ValuesOfParts(math, h, scale, i, n, d, v);
    WeightedWithin(math, kept, d, v);
    WeightedWithin(math, masked, d, v);
    var e := Times(bm as real, math.exp2(b - 1000000.0));
    MeansClose(Weighted(math, kept, 0.0, d), Weighted(math, masked, 0.0, d), Mass(math, kept, 0.0), Mass(math, masked, 0.0), v, e);
    ErrorIs(math, bm, v, b);
  }

  lemma ErrorIs(math: Math, bm: nat, v: real, b: real)
    ensures Error(math, bm, v, b) == 2.0 * Times(v, Times(bm as real, math.exp2(b - 1000000.0)))
  {
  }

  lemma MassShare(math: Math, h: Head, scale: real, i: nat, n: nat, bm: nat, b: real)
    requires math.Laws() && h.Valid() && i < n <= i + bm && Spread(h, scale, i, n, b)
    ensures Mass(math, ColumnsFrom(h, scale, 2, i, i + 1, n - i - 1), 0.0)
            <= Times(Times(bm as real, math.exp2(b - 1000000.0)), Mass(math, PlainColumns(h, scale, i, i + 1), 0.0))
  {
    hide math.Laws, Scored, Plain, Mass, Times, Spread;
    MaskedMass(math, h, scale, i, n, b);
    MassPositive(math, PlainColumns(h, scale, i, i + 1), 0.0);
    math.Positive(b - 1000000.0);
    TimesGrows((n - i - 1) as real, bm as real, math.exp2(b - 1000000.0));
    TimesGrows(Times((n - i - 1) as real, math.exp2(b - 1000000.0)), Times(bm as real, math.exp2(b - 1000000.0)),
               Mass(math, PlainColumns(h, scale, i, i + 1), 0.0));
  }

  lemma ValuesOfParts(math: Math, h: Head, scale: real, i: nat, n: nat, d: nat, v: real)
    requires math.Laws() && h.Valid() && i < n && d < h.d
    requires forall j :: 0 <= j < n ==> |h.value(j)| == h.d && -v <= h.value(j)[d] <= v
    ensures ValuesWithin(PlainColumns(h, scale, i, i + 1), d, v)
    ensures ValuesWithin(ColumnsFrom(h, scale, 2, i, i + 1, n - i - 1), d, v)
  {
    hide math.Laws, Scored, Dot;
    var masked := ColumnsFrom(h, scale, 2, i, i + 1, n - i - 1);
    forall j | 0 <= j < |masked| ensures d < |masked[j].value| && -v <= masked[j].value[d] <= v {
      MaskedKey(math, h, scale, i, i + 1 + j);
    }
  }

  lemma StoredIs(math: Math, h: Head, cols: seq<Column>, out: seq<real>, lse: Ext, d: nat)
    requires Stored(math, h, cols, out, lse) && cols != [] && d < h.d
    ensures |out| == h.d && d < |out| && Wide(cols, h.d) && Mass(math, cols, 0.0) > 0.0 && out[d] == Softmax.Attention(math, cols, d)
  {
  }

  // ---------- what the kernel stores ----------

  /** With the causal mask row i, in a tile that ends at n, stores the attention over the keys up to
      its query, but for an error of at most 2 * v * BLOCK_M * 2^(b - 1000000), where no value
      exceeds v and the scores differ by at most b. */
  lemma CausalOutput(math: Math, h: Head, scale: real, startM: nat, bm: nat, bn: nat, nCtx: nat, r: nat, k: nat, i: nat, n: nat,
                     out: seq<real>, lse: Ext, d: nat, v: real, b: real)
    requires math.Laws() && h.Valid() && bn > 0 && bm == k * bn && r < bm && d < h.d && v >= 0.0
    requires i == startM * bm + r && n == TileEnd(startM, bm)
    requires Stored(math, h, RowColumns(h, scale, true, startM, bm, bn, nCtx, r), out, lse)
    requires Spread(h, scale, i, n, b)
    requires forall j :: 0 <= j < n ==> |h.value(j)| == h.d && -v <= h.value(j)[d] <= v
    ensures d < |out| && Mass(math, PlainColumns(h, scale, i, i + 1), 0.0) > 0.0
    ensures out[d] - Softmax.Attention(math, PlainColumns(h, scale, i, i + 1), d) <= 2.0 * (v * (bm as real * math.exp2(b - 1000000.0)))
    ensures Softmax.Attention(math, PlainColumns(h, scale, i, i + 1), d) - out[d] <= 2.0 * (v * (bm as real * math.exp2(b - 1000000.0)))
  {
    hide math.Laws, Mass, Weighted, Scored, Plain, Spread, Stored, RowColumns, Softmax.Attention;
    CausalColumns(h, scale, startM, bm, bn, nCtx, r, k);
    TileHolds(startM, bm, r);
    RowIsClose(math, h, scale, i, n, bm, d, v, b);
    StoredIs(math, h, ColumnsFrom(h, scale, 2, i, 0, n), out, lse, d);
  }

  /** Without it, if BLOCK_N divides the number of keys, row i stores the attention over all keys. */
  lemma FullOutput(math: Math, h: Head, scale: real, startM: nat, bm: nat, bn: nat, nCtx: nat, r: nat, k: nat,
                   out: seq<real>, lse: Ext, d: nat)
    requires math.Laws() && h.Valid() && bn > 0 && nCtx == k * bn > 0 && r < bm && d < h.d
    requires Stored(math, h, RowColumns(h, scale, false, startM, bm, bn, nCtx, r), out, lse)
    ensures d < |out| && Mass(math, PlainColumns(h, scale, startM * bm + r, nCtx), 0.0) > 0.0
    ensures out[d] == Softmax.Attention(math, PlainColumns(h, scale, startM * bm + r, nCtx), d)
    ensures lse == Fin(math.log2(Mass(math, PlainColumns(h, scale, startM * bm + r, nCtx), 0.0)))
  {
    hide math.Laws, Mass, Weighted, RowColumns, Dot;
    var i := startM * bm + r;
    FullColumns(h, scale, startM, bm, bn, nCtx, r, k);
    var cols, plain := ColumnsFrom(h, scale, 3, i, 0, nCtx), PlainColumns(h, scale, i, nCtx);
    assert forall j :: 0 <= j < nCtx ==> cols[j] == plain[j];
    assert cols == plain;
  }

  lemma TileHolds(startM: nat, bm: nat, r: nat)
    requires r < bm
    ensures startM * bm + r < TileEnd(startM, bm) <= startM * bm + r + bm && TileEnd(startM, bm) == (startM + 1) * bm
  {
  }
}
