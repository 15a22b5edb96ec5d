/** Fused attention, forward pass (python/tutorials/06-fused-attention.py:28-77, 100-189), in
exact arithmetic.  One program handles BLOCK_M rows of queries. */
module Attention {
  import opened Arith
  import opened Softmax

  /** One batch and head: every query row, key and value vector, all `d` wide. */
  datatype Head = Head(d: nat, query: nat -> seq<real>, key: nat -> seq<real>, value: nat -> seq<real>) {
    ghost predicate Valid() {
      && (forall i: nat :: |query(i)| == d)
      && (forall j: nat :: |key(j)| == d)
      && forall j: nat :: |value(j)| == d
    }
  }

  // tl.dot of one query row and one key column.
  function Dot(a: seq<real>, b: seq<real>): real
    requires |a| == |b|
  {
    if a == [] then 0.0 else Dot(a[1..], b[1..]) + a[0] * b[0]
  }

  /** The product grows by the product of the last elements. */
  lemma {:induction false} DotLast(a: seq<real>, b: seq<real>, x: real, y: real)
    requires |a| == |b|
    ensures Dot([], []) == 0.0 && Dot(a + [x], b + [y]) == Dot(a, b) + x * y
  {
    if a == [] {
      assert a + [x] == [x] && b + [y] == [y] && [x][1..] == [] && [y][1..] == [];
    } else {
      assert (a + [x])[1..] == a[1..] + [x] && (b + [y])[1..] == b[1..] + [y];
      DotLast(a[1..], b[1..], x, y);
    }
  }

  const MASKED := -1.0e6

  // The bias that the on-band stage adds.
  function Bias(i: nat, j: nat): real {
    if i >= j then 0.0 else MASKED
  }

  // A column as stage `stage` scores it for query row i.
  ghost function Scored(h: Head, scale: real, stage: nat, i: nat, j: nat): (c: Column)
    requires h.Valid()
    ensures |c.value| == h.d
  {
    Column(Dot(h.query(i), h.key(j)) * scale + (if stage == 2 then Bias(i, j) else 0.0), h.value(j))
  }

  // The columns lo, lo + 1, ..., lo + n - 1.
  ghost function ColumnsFrom(h: Head, scale: real, stage: nat, i: nat, lo: nat, n: nat): (c: seq<Column>)
    requires h.Valid()
    ensures |c| == n && (forall j :: 0 <= j < n ==> c[j] == Scored(h, scale, stage, i, lo + j)) && Wide(c, h.d)
  {
    var c := seq(n, j requires 0 <= j < n => Scored(h, scale, stage, i, lo + j));
    assert forall j :: 0 <= j < n ==> c[j] == Scored(h, scale, stage, i, lo + j) && |c[j].value| == h.d;
    c
  }

  lemma ColumnsAppend(h: Head, scale: real, stage: nat, i: nat, lo: nat, n: nat, k: nat)
    requires h.Valid()
    ensures ColumnsFrom(h, scale, stage, i, lo, n) + ColumnsFrom(h, scale, stage, i, lo + n, k) == ColumnsFrom(h, scale, stage, i, lo, n + k)
  {
    hide Scored;
    var a, b, c := ColumnsFrom(h, scale, stage, i, lo, n), ColumnsFrom(h, scale, stage, i, lo + n, k), ColumnsFrom(h, scale, stage, i, lo, n + k);
    forall j | 0 <= j < n + k ensures (a + b)[j] == c[j] {
      assert j >= n ==> lo + n + (j - n) == lo + j;
    }
    assert a + b == c;
  }

  function MaxOf(s: seq<real>): (m: real)
    requires s != []
    ensures m in s && forall k :: 0 <= k < |s| ==> s[k] <= m
  {
    if |s| == 1 then s[0]
    else
      var m := MaxOf(s[..|s| - 1]);
      assert s == s[..|s| - 1] + [s[|s| - 1]];
      if m < s[|s| - 1] then s[|s| - 1] else m
  }

  // lo and hi of the source.
  function Lo(stage: nat, startM: nat, bm: nat): nat {
    if stage == 2 then startM * bm else 0
  }

  function Hi(stage: nat, startM: nat, bm: nat, nCtx: nat): nat {
    if stage == 1 then startM * bm else if stage == 2 then (startM + 1) * bm else nCtx
  }

  // Columns that range(lo, hi, bn) visits: whole blocks.
  function Reach(lo: nat, hi: nat, bn: nat): nat
    requires bn > 0
  {
    if hi <= lo then 0 else (hi - lo + bn - 1) / bn * bn
  }

  // ---------- one turn of the loop, for one row ----------

  // The scores of one block, as one list.
  ghost function Scores(h: Head, scale: real, stage: nat, i: nat, k0: nat, bn: nat): (s: seq<real>)
    requires h.Valid()
    ensures |s| == bn && forall n :: 0 <= n < bn ==> s[n] == Scored(h, scale, stage, i, k0 + n).score
  {
    seq(bn, n requires 0 <= n < bn => Scored(h, scale, stage, i, k0 + n).score)
  }

  lemma MaskedScores(h: Head, scale: real, i: nat, k0: nat, bn: nat, qk: seq<real>)
    requires h.Valid() && |qk| == bn
    requires forall n :: 0 <= n < bn ==> qk[n] == Dot(h.query(i), h.key(k0 + n)) * scale + (if i >= k0 + n then 0.0 else MASKED)
    ensures qk == Scores(h, scale, 2, i, k0, bn)
  {
    hide Dot;
    forall n | 0 <= n < bn ensures qk[n] == Scores(h, scale, 2, i, k0, bn)[n] {
      assert Bias(i, k0 + n) == if i >= k0 + n then 0.0 else MASKED;
    }
  }

  /** qk and m_ij: the scores of one block less the new reference, which is the running maximum if
      the scale is not negative. */
  method ShiftedScores(h: Head, scale: real, stage: nat, i: nat, k0: nat, bn: nat, before: Ext) returns (qk: seq<real>, m: real)
    requires h.Valid() && bn > 0
    ensures |qk| == bn && forall n :: 0 <= n < bn ==> qk[n] == Scored(h, scale, stage, i, k0 + n).score - m
    ensures stage == 2 || scale >= 0.0 ==> m == Maximum(before, MaxOf(Scores(h, scale, stage, i, k0, bn)))
  {
    hide MaxOf, Dot;
    qk := seq(bn, n requires 0 <= n < bn => Dot(h.query(i), h.key(k0 + n)));
    if stage == 2 {
      qk := seq(bn, n requires 0 <= n < bn => qk[n] * scale + (if i >= k0 + n then 0.0 else MASKED));
      MaskedScores(h, scale, i, k0, bn, qk);
      m := Maximum(before, MaxOf(qk));
      qk := seq(bn, n requires 0 <= n < bn => qk[n] - m);
    } else {
      m := Maximum(before, MaxOf(qk) * scale);
      if scale >= 0.0 {
        forall n: nat | n < bn ensures ScaledAt(qk, Scores(h, scale, stage, i, k0, bn), scale, n) {
        }
        MaxScales(qk, Scores(h, scale, stage, i, k0, bn), scale);
      }
      qk := seq(bn, n requires 0 <= n < bn => qk[n] * scale - m);
    }
  }

  /** p, l_ij, alpha and the updates for one row and one block. */
  method Turn(math: Math, h: Head, scale: real, stage: nat, i: nat, k0: nat, v0: nat, bn: nat, row: Row) returns (r: Row)
    requires h.Valid() && bn > 0 && |row.acc| == h.d && k0 == v0
    ensures r.m.Fin? && r == Absorb(math, row, ColumnsFrom(h, scale, stage, i, k0, bn), r.m.v)
    ensures stage == 2 || scale >= 0.0 ==> r.m.v == Maximum(row.m, MaxOf(Scores(h, scale, stage, i, k0, bn)))
  {
    hide MaxOf, Scored, Mass, Weighted, Absorb, Dot;
    ghost var block := ColumnsFrom(h, scale, stage, i, k0, bn);
    var qk, m := ShiftedScores(h, scale, stage, i, k0, bn, row.m);
    var p := seq(bn, n requires 0 <= n < bn => math.exp2(qk[n]));
    var lij := Total(math, p, block, m);
    var alpha := Exp2(math, Minus(row.m, m));
    var acc := seq(h.d, e requires 0 <= e < h.d => row.acc[e] * alpha);
    ValuesOf(h, scale, stage, i, k0, bn);
    acc := AddDot(math, h, p, v0, bn, acc, block, m);
    r := Row(acc, row.l * alpha + lij, Fin(m));
    AbsorbIs(math, row, block, m, r);
  }

  lemma AbsorbIs(math: Math, row: Row, block: seq<Column>, m: real, r: Row)
    requires Wide(block, |row.acc|) && |r.acc| == |row.acc| && r.m == Fin(m)
    requires r.l == row.l * Exp2(math, Minus(row.m, m)) + Mass(math, block, m)
    requires forall e :: 0 <= e < |r.acc| ==> r.acc[e] == row.acc[e] * Exp2(math, Minus(row.m, m)) + Weighted(math, block, m, e)
    ensures r == Absorb(math, row, block, m)
  {
    hide Mass, Weighted;
    var t := Absorb(math, row, block, m);
    forall e | 0 <= e < |row.acc| ensures r.acc[e] == t.acc[e] {
    }
    assert r.acc == t.acc;
  }

  // tl.sum(p, 1)
  method Total(math: Math, p: seq<real>, ghost block: seq<Column>, ghost m: real) returns (sum: real)
    requires |p| == |block| && forall n :: 0 <= n < |p| ==> p[n] == math.exp2(block[n].score - m)
    ensures sum == Mass(math, block, m)
  {
    sum := 0.0;
    for n := 0 to |p|
      invariant sum == Mass(math, block[..n], m)
    {
      assert block[..n + 1][..n] == block[..n];
      sum := sum + p[n];
    }
    assert block[..|p|] == block;
  }

  lemma ValuesOf(h: Head, scale: real, stage: nat, i: nat, lo: nat, n: nat)
    requires h.Valid()
    ensures forall j :: 0 <= j < n ==> ColumnsFrom(h, scale, stage, i, lo, n)[j].value == h.value(lo + j)
  {
  }

  ghost predicate ScaledAt(s: seq<real>, t: seq<real>, scale: real, n: nat) {
    n < |s| && n < |t| && t[n] == s[n] * scale
  }

  lemma MaxScales(s: seq<real>, t: seq<real>, scale: real)
    requires |s| == |t| > 0 && scale >= 0.0 && forall n: nat :: n < |s| ==> ScaledAt(s, t, scale, n)
    ensures MaxOf(s) * scale == MaxOf(t)
  {
    hide MaxOf, ScaledAt;
    var m, k := MaxOf(s), MaxOf(t);
    var a: nat :| a < |s| && s[a] == m;
    var b: nat :| b < |t| && t[b] == k;
    assert t[a] <= k && s[b] <= m;
    MaxAgree(m, t[a], s[b], k, scale) by {
      ScaledIs(s, t, scale, a);
      ScaledIs(s, t, scale, b);
    }
  }

  lemma ScaledIs(s: seq<real>, t: seq<real>, scale: real, n: nat)
    requires ScaledAt(s, t, scale, n)
    ensures n < |s| && n < |t| && t[n] == s[n] * scale
  {
  }

  lemma MaxAgree(m: real, scaledM: real, x: real, k: real, scale: real)
    requires scaledM == m * scale && k == x * scale && scaledM <= k && x <= m && scale >= 0.0
    ensures m * scale == k
  {
    ScaleMonotone(x, m, scale);
  }

  lemma ScaleMonotone(a: real, b: real, c: real)
    requires a <= b && c >= 0.0
    ensures a * c <= b * c
  {
    assert (b - a) * c >= 0.0;
  }

  // acc = tl.dot(p, v, acc)
  method AddDot(math: Math, h: Head, p: seq<real>, v0: nat, bn: nat, acc0: seq<real>, ghost block: seq<Column>, ghost m: real) returns (acc: seq<real>)
    requires h.Valid() && |p| == bn == |block| && |acc0| == h.d && Wide(block, h.d)
    requires forall n :: 0 <= n < bn ==> p[n] == math.exp2(block[n].score - m) && block[n].value == h.value(v0 + n)
    ensures |acc| == h.d && forall e :: 0 <= e < h.d ==> acc[e] == acc0[e] + Weighted(math, block, m, e)
  {
    acc := acc0;
    for n := 0 to bn
      invariant |acc| == h.d && Wide(block[..n], h.d)
      invariant forall e :: 0 <= e < h.d ==> acc[e] == acc0[e] + Weighted(math, block[..n], m, e)
    {
      assert block[..n + 1][..n] == block[..n];
      acc := seq(h.d, e requires 0 <= e < h.d => acc[e] + p[n] * h.value(v0 + n)[e]);
    }
    assert block[..bn] == block;
  }

  // ---------- the tile ----------

  /** Every row of the tile means what its visited columns say. */
  ghost predicate TileTracks(math: Math, scale: real, tile: seq<Row>, cols: seq<seq<Column>>, w: nat) {
    |tile| == |cols| && forall r :: 0 <= r < |tile| ==> RowTracks(math, scale, tile[r], cols[r], w)
  }

  ghost predicate RowTracks(math: Math, scale: real, row: Row, cols: seq<Column>, w: nat) {
    Tracks(math, row, cols, w) && (scale >= 0.0 ==> RunningMax(row, cols))
  }

  lemma TurnTracks(math: Math, h: Head, scale: real, stage: nat, i: nat, k0: nat, bn: nat, row: Row, cols: seq<Column>, next: Row)
    requires math.Laws() && h.Valid() && bn > 0 && RowTracks(math, scale, row, cols, h.d)
    requires next.m.Fin? && next == Absorb(math, row, ColumnsFrom(h, scale, stage, i, k0, bn), next.m.v)
    requires stage == 2 || scale >= 0.0 ==> next.m.v == Maximum(row.m, MaxOf(Scores(h, scale, stage, i, k0, bn)))
    ensures RowTracks(math, scale, next, cols + ColumnsFrom(h, scale, stage, i, k0, bn), h.d)
  {
    hide math.Laws, Absorb, Mass, Weighted, Scored, MaxOf, Tracks, RunningMax;
    var block := ColumnsFrom(h, scale, stage, i, k0, bn);
    AbsorbTracks(math, row, cols, block, next.m.v, h.d);
    if scale >= 0.0 {
      var scores := Scores(h, scale, stage, i, k0, bn);
      assert forall n :: 0 <= n < bn ==> scores[n] == block[n].score;
      AbsorbKeepsMax(math, row, cols, block, next.m.v, MaxOf(scores), h.d);
    }
  }

  // The columns row r has visited after `n` more columns of a stage.
  ghost function Visited(h: Head, scale: real, stage: nat, startM: nat, bm: nat, before: seq<seq<Column>>, n: nat): (c: seq<seq<Column>>)
    requires h.Valid() && |before| == bm
    ensures |c| == bm
    ensures forall r :: 0 <= r < bm ==> c[r] == before[r] + ColumnsFrom(h, scale, stage, startM * bm + r, Lo(stage, startM, bm), n)
  {
    seq(bm, r requires 0 <= r < bm => before[r] + ColumnsFrom(h, scale, stage, startM * bm + r, Lo(stage, startM, bm), n))
  }

  method TurnTile(math: Math, h: Head, scale: real, stage: nat, startM: nat, bm: nat, k0: nat, v0: nat, bn: nat, tile: seq<Row>,
                  ghost before: seq<seq<Column>>, ghost n: nat) returns (next: seq<Row>)
    requires math.Laws() && h.Valid() && bn > 0 && k0 == v0 == Lo(stage, startM, bm) + n && |before| == bm
    requires TileTracks(math, scale, tile, Visited(h, scale, stage, startM, bm, before, n), h.d)
    ensures TileTracks(math, scale, next, Visited(h, scale, stage, startM, bm, before, n + bn), h.d)
  {
    hide math.Laws, Absorb, Mass, Weighted, Scored, MaxOf, RunningMax;
    next := [];
    ghost var was, now := Visited(h, scale, stage, startM, bm, before, n), Visited(h, scale, stage, startM, bm, before, n + bn);
    for r := 0 to bm
      invariant |next| == r && forall q :: 0 <= q < r ==> RowTracks(math, scale, next[q], now[q], h.d)
    {
      var i := startM * bm + r;
      assert RowTracks(math, scale, tile[r], was[r], h.d) && |tile[r].acc| == h.d;
      ghost var block := ColumnsFrom(h, scale, stage, i, k0, bn);
      var row := Turn(math, h, scale, stage, i, k0, v0, bn, tile[r]);
      TurnTracks(math, h, scale, stage, i, k0, bn, tile[r], was[r], row);
      ColumnsAppend(h, scale, stage, i, Lo(stage, startM, bm), n, bn);
      assert was[r] + block == now[r];
      next := next + [row];
    }
  }

  /** `_attn_fwd_inner` */
  method AttnFwdInner(math: Math, h: Head, scale: real, stage: nat, startM: nat, bm: nat, bn: nat, nCtx: nat, tile0: seq<Row>, ghost before: seq<seq<Column>>)
    returns (tile: seq<Row>)
    requires math.Laws() && h.Valid() && bn > 0 && |before| == bm && TileTracks(math, scale, tile0, before, h.d)
    ensures TileTracks(math, scale, tile, Visited(h, scale, stage, startM, bm, before, Reach(Lo(stage, startM, bm), Hi(stage, startM, bm, nCtx), bn)), h.d)
  {
    hide math.Laws, RowTracks;
    var lo, hi := Lo(stage, startM, bm), Hi(stage, startM, bm, nCtx);
    var kBlock, vBlock := 0, 0;
    kBlock := kBlock + lo;
    vBlock := vBlock + lo;
    tile := tile0;
    NothingVisited(h, scale, stage, startM, bm, before);
    var startN := lo;
    ghost var turns: nat := 0;
    while startN < hi
      invariant startN == lo + turns * bn && kBlock == vBlock == startN
      invariant startN < hi + bn || turns == 0
      invariant TileTracks(math, scale, tile, Visited(h, scale, stage, startM, bm, before, turns * bn), h.d)
      decreases hi - startN
    {
      tile := TurnTile(math, h, scale, stage, startM, bm, kBlock, vBlock, bn, tile, before, turns * bn);
      vBlock := vBlock + bn;
      kBlock := kBlock + bn;
      startN := startN + bn;
      turns := turns + 1;
    }
    TurnsReach(lo, hi, bn, turns);
  }

  lemma NothingVisited(h: Head, scale: real, stage: nat, startM: nat, bm: nat, before: seq<seq<Column>>)
    requires h.Valid() && |before| == bm
    ensures Visited(h, scale, stage, startM, bm, before, 0) == before
  {
    forall r | 0 <= r < bm ensures Visited(h, scale, stage, startM, bm, before, 0)[r] == before[r] {
      assert |ColumnsFrom(h, scale, stage, startM * bm + r, Lo(stage, startM, bm), 0)| == 0;
    }
  }

  lemma TurnsReach(lo: nat, hi: nat, bn: nat, turns: nat)
    requires bn > 0 && lo + turns * bn >= hi && (turns > 0 ==> lo + turns * bn < hi + bn)
    ensures turns * bn == Reach(lo, hi, bn)
  {
    if hi > lo {
      assert turns > 0;
      DivModUnique(hi - lo + bn - 1, bn, turns, hi - lo + bn - 1 - turns * bn);
    } else {
      Multiples(turns, bn);
    }
  }

  // ---------- the kernel ----------

  /** The columns that row r of program startM visits, in order. */
  ghost function RowColumns(h: Head, scale: real, causal: bool, startM: nat, bm: nat, bn: nat, nCtx: nat, r: nat): (c: seq<Column>)
    requires h.Valid() && bn > 0
    ensures Wide(c, h.d)
  {
    var i := startM * bm + r;
    if causal then
      ColumnsFrom(h, scale, 1, i, 0, Reach(0, startM * bm, bn))
      + ColumnsFrom(h, scale, 2, i, startM * bm, Reach(startM * bm, (startM + 1) * bm, bn))
    else
      ColumnsFrom(h, scale, 3, i, 0, Reach(0, nCtx, bn))
  }

  lemma StageColumns(h: Head, scale: real, causal: bool, startM: nat, bm: nat, bn: nat, nCtx: nat, r: nat, empty: seq<seq<Column>>)
    requires h.Valid() && bn > 0 && r < bm && |empty| == bm && empty[r] == []
    ensures !causal ==> Visited(h, scale, 3, startM, bm, empty, Reach(0, nCtx, bn))[r] == RowColumns(h, scale, causal, startM, bm, bn, nCtx, r)
    ensures causal ==>
              Visited(h, scale, 2, startM, bm, Visited(h, scale, 1, startM, bm, empty, Reach(0, startM * bm, bn)),
                      Reach(startM * bm, (startM + 1) * bm, bn))[r] == RowColumns(h, scale, causal, startM, bm, bn, nCtx, r)
  {
  }

  /** `_attn_fwd`, one program: every row stores plain attention over the columns it visited, and
      the logarithm of their total weight; nothing is left of the initial l = 1 and m = -inf. */
  method AttnFwd(math: Math, h: Head, smScale: real, causal: bool, startM: nat, bm: nat, bn: nat, nCtx: nat)
    returns (out: seq<seq<real>>, lse: seq<Ext>)
    requires math.Laws() && h.Valid() && bn > 0
    ensures |out| == |lse| == bm
    ensures forall r :: 0 <= r < bm ==> Stored(math, h, RowColumns(h, smScale * 1.44269504, causal, startM, bm, bn, nCtx, r), out[r], lse[r])
  {
    hide math.Laws, Tracks, RowTracks, RowColumns, Stored;
    var scale := smScale;
    scale := scale * 1.44269504;
    var stage := if causal then 3 else 1;
    var tile := seq(bm, r => Row(seq(h.d, e => 0.0), 1.0, NegInf));
    ghost var empty: seq<seq<Column>> := seq(bm, r => []);
    FreshTile(math, scale, tile, empty, h.d);
    ghost var cols := empty;
    if stage % 2 == 1 {
      tile := AttnFwdInner(math, h, scale, 4 - stage, startM, bm, bn, nCtx, tile, cols);
      cols := Visited(h, scale, 4 - stage, startM, bm, cols, Reach(Lo(4 - stage, startM, bm), Hi(4 - stage, startM, bm, nCtx), bn));
    }
    if stage / 2 % 2 == 1 {
      tile := AttnFwdInner(math, h, scale, 2, startM, bm, bn, nCtx, tile, cols);
      cols := Visited(h, scale, 2, startM, bm, cols, Reach(Lo(2, startM, bm), Hi(2, startM, bm, nCtx), bn));
    }
    out, lse := [], [];
    for r := 0 to bm
      invariant |out| == |lse| == r
      invariant forall q :: 0 <= q < r ==> Stored(math, h, RowColumns(h, scale, causal, startM, bm, bn, nCtx, q), out[q], lse[q])
    {
      StageColumns(h, scale, causal, startM, bm, bn, nCtx, r, empty);
      var o, e := Epilogue(math, h, scale, tile[r], cols[r]);
      out, lse := out + [o], lse + [e];
    }
  }

  lemma FreshTile(math: Math, scale: real, tile: seq<Row>, cols: seq<seq<Column>>, w: nat)
    requires |tile| == |cols| && forall r :: 0 <= r < |tile| ==> cols[r] == [] && tile[r] == Row(seq(w, e => 0.0), 1.0, NegInf)
    ensures TileTracks(math, scale, tile, cols, w)
  {
    forall r | 0 <= r < |tile| ensures RowTracks(math, scale, tile[r], cols[r], w) {
      assert tile[r].acc == seq(w, d => 0.0);
    }
  }

  // What is stored for one row.
  ghost predicate Stored(math: Math, h: Head, cols: seq<Column>, out: seq<real>, lse: Ext) {
    && |out| == h.d && Wide(cols, h.d)
    && (cols != [] ==>
          && Mass(math, cols, 0.0) > 0.0
          && (forall e :: 0 <= e < h.d ==> out[e] == Attention(math, cols, e))
          && lse == Fin(math.log2(Mass(math, cols, 0.0))))
    && (cols == [] ==> lse == NegInf && forall e :: 0 <= e < h.d ==> out[e] == 0.0)
  }

  method Epilogue(math: Math, h: Head, scale: real, row: Row, ghost cols: seq<Column>) returns (out: seq<real>, lse: Ext)
    requires math.Laws() && RowTracks(math, scale, row, cols, h.d)
    ensures Stored(math, h, cols, out, lse)
  {
    hide math.Laws, Mass, Weighted, Attention, RunningMax;
    if cols != [] {
      OutputIsAttention(math, row, cols, h.d);
    }
    lse := Plus(row.m, math.log2(row.l));
    out := seq(h.d, e requires 0 <= e < h.d => Output(math, row, e));
  }

  // ---------- which columns ----------

  /** With BLOCK_N dividing BLOCK_M, the two causal stages visit the columns up to the end of the
      tile once each, biased exactly where the query comes before the key. */
  lemma CausalColumns(h: Head, scale: real, startM: nat, bm: nat, bn: nat, nCtx: nat, r: nat, k: nat)
    requires h.Valid() && bn > 0 && bm == k * bn && r < bm
    ensures RowColumns(h, scale, true, startM, bm, bn, nCtx, r) == ColumnsFrom(h, scale, 2, startM * bm + r, 0, (startM + 1) * bm)
  {
    hide Scored;
    var i := startM * bm + r;
    ReachExact(0, startM * bm, bn, startM * k);
    assert startM * bm == startM * k * bn;
    ReachExact(startM * bm, (startM + 1) * bm, bn, k);
    var a, b := ColumnsFrom(h, scale, 1, i, 0, startM * bm), ColumnsFrom(h, scale, 2, i, 0, startM * bm);
    forall j | 0 <= j < startM * bm ensures a[j] == b[j] {
      UnbiasedBefore(h, scale, i, j);
    }
    assert a == b;
    ColumnsAppend(h, scale, 2, i, 0, startM * bm, bm);
  }

  lemma UnbiasedBefore(h: Head, scale: real, i: nat, j: nat)
    requires h.Valid() && j <= i
    ensures Scored(h, scale, 1, i, j) == Scored(h, scale, 2, i, j)
  {
  }

  /** The mask is a finite bias: a key after the query keeps the fraction 2^-1000000 of its weight. */
  lemma MaskedWeight(math: Math, h: Head, scale: real, i: nat, j: nat)
    requires math.Laws() && h.Valid() && i < j
    ensures Scored(h, scale, 2, i, j).score == Dot(h.query(i), h.key(j)) * scale - 1000000.0
    ensures math.exp2(Scored(h, scale, 2, i, j).score) * math.exp2(1000000.0) == math.exp2(Dot(h.query(i), h.key(j)) * scale)
    ensures math.exp2(Scored(h, scale, 2, i, j).score) > 0.0
  {
    hide math.Laws;
    var s := Dot(h.query(i), h.key(j)) * scale;
    assert Bias(i, j) == -1000000.0;
    assert Scored(h, scale, 2, i, j).score == s + Bias(i, j);
    math.Adds(s - 1000000.0, 1000000.0);
    assert s - 1000000.0 + 1000000.0 == s;
    math.Positive(s - 1000000.0);
  }

  /** Without a causal mask, all keys are visited once, if BLOCK_N divides their number. */
  lemma FullColumns(h: Head, scale: real, startM: nat, bm: nat, bn: nat, nCtx: nat, r: nat, k: nat)
    requires h.Valid() && bn > 0 && nCtx == k * bn
    ensures RowColumns(h, scale, false, startM, bm, bn, nCtx, r) == ColumnsFrom(h, scale, 3, startM * bm + r, 0, nCtx)
  {
    ReachExact(0, nCtx, bn, k);
  }

  /** The loop stops exactly at the end of its range if and only if the block size divides it. */
  lemma ReachIsRange(lo: nat, hi: nat, bn: nat)
    requires bn > 0 && lo <= hi
    ensures Reach(lo, hi, bn) == hi - lo <==> (hi - lo) % bn == 0
    ensures hi - lo <= Reach(lo, hi, bn) < hi - lo + bn
  {
    var v := hi - lo + bn - 1;
    MultipleMod(v / bn, bn);
    if (hi - lo) % bn == 0 {
      ReachExact(lo, hi, bn, (hi - lo) / bn);
    }
  }

  // One past the last row of queries of a program, and past the last key of its causal stages.
  function TileEnd(startM: nat, bm: nat): nat {
    (startM + 1) * bm
  }

  /** Block loads are not masked.  Keys at or past the end of the context are never loaded without
      a causal mask exactly if BLOCK_N divides its length; rows of queries, and with a causal mask
      and BLOCK_N dividing BLOCK_M also keys, exactly if BLOCK_M does. */
  lemma LoadsInContext(nCtx: nat, bm: nat, bn: nat)
    requires bm > 0 && bn > 0
    ensures Reach(0, nCtx, bn) <= nCtx <==> nCtx % bn == 0
    ensures (forall startM: nat :: startM < Cdiv(nCtx, bm) ==> TileEnd(startM, bm) <= nCtx) <==> nCtx % bm == 0
  {
    ReachIsRange(0, nCtx, bn);
    var g := Cdiv(nCtx, bm);
    CdivReaches(nCtx, bm);
    if nCtx % bm == 0 {
      DivModUnique(nCtx + bm - 1, bm, nCtx / bm, bm - 1);
      forall startM: nat | startM < g ensures TileEnd(startM, bm) <= nCtx {
        Multiples(g - startM - 1, bm);
        assert g * bm - TileEnd(startM, bm) == (g - startM - 1) * bm;
      }
    } else {
      MultipleMod(g, bm);
      assert g > 0 && TileEnd(g - 1, bm) == g * bm;
    }
  }

  lemma ReachExact(lo: nat, hi: nat, bn: nat, k: nat)
    requires bn > 0 && lo <= hi && hi - lo == k * bn
    ensures Reach(lo, hi, bn) == hi - lo
  {
    if hi > lo {
      DivModUnique(hi - lo + bn - 1, bn, k, bn - 1);
    }
  }
}
