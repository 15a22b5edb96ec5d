/** Softmax-weighted sums over lists of columns, plain and rescaled by a running maximum. */
module Softmax {
  /** Exact powers and logarithms to the base 2. */
  datatype Math = Math(exp2: real -> real, log2: real -> real) {
    ghost predicate Laws() {
      && (forall a: real, b: real :: exp2(a + b) == exp2(a) * exp2(b))
      && (forall a: real :: exp2(a) > 0.0 && log2(exp2(a)) == a)
      && (forall x: real :: x > 0.0 ==> exp2(log2(x)) == x)
      && exp2(1.0) == 2.0
      && forall a: real, b: real :: a <= b ==> exp2(a) <= exp2(b)
    }

    lemma Grows(a: real, b: real)
      requires Laws() && a <= b
      ensures exp2(a) <= exp2(b)
    {
    }

    lemma Adds(a: real, b: real)
      requires Laws()
      ensures exp2(a + b) == exp2(a) * exp2(b)
    {
    }

    lemma Positive(a: real)
      requires Laws()
      ensures exp2(a) > 0.0
    {
    }

    lemma Inverse(a: real, x: real)
      requires Laws() && x > 0.0
      ensures exp2(log2(x)) == x && log2(exp2(a)) == a
    {
    }
  }

  // A float that may be minus infinity.
  datatype Ext = NegInf | Fin(v: real)

  function Exp2(math: Math, x: Ext): real {
    match x
    case NegInf => 0.0
    case Fin(v) => math.exp2(v)
  }

  function Minus(x: Ext, y: real): Ext {
    match x
    case NegInf => NegInf
    case Fin(v) => Fin(v - y)
  }

  function Plus(x: Ext, y: real): Ext {
    Minus(x, -y)
  }

  function Maximum(x: Ext, y: real): real {
    match x
    case NegInf => y
    case Fin(v) => if v < y then y else v
  }

  // One visited column: its score and its value vector.
  datatype Column = Column(score: real, value: seq<real>)

  ghost predicate Wide(cols: seq<Column>, w: nat) {
    forall j :: 0 <= j < |cols| ==> |cols[j].value| == w
  }

  // Sum of exp2(score - m) over the columns.
  function Mass(math: Math, cols: seq<Column>, m: real): real {
    if cols == [] then 0.0 else Mass(math, cols[..|cols| - 1], m) + math.exp2(cols[|cols| - 1].score - m)
  }

  // Sum of exp2(score - m) * value[d] over the columns.
  function Weighted(math: Math, cols: seq<Column>, m: real, d: nat): real
    requires forall j :: 0 <= j < |cols| ==> d < |cols[j].value|
  {
    if cols == [] then 0.0
    else
      Weighted(math, cols[..|cols| - 1], m, d) + math.exp2(cols[|cols| - 1].score - m) * cols[|cols| - 1].value[d]
  }

  // Changing the reference from m to n scales every term alike.
  lemma {:induction false} MassRescaled(math: Math, cols: seq<Column>, m: real, n: real)
    requires math.Laws()
    ensures Mass(math, cols, n) == Mass(math, cols, m) * math.exp2(m - n)
  {
    hide math.Laws;
    if cols != [] {
      MassRescaled(math, cols[..|cols| - 1], m, n);
      var s := cols[|cols| - 1].score;
      math.Adds(s - m, m - n);
      assert s - m + (m - n) == s - n;
    }
  }

  lemma {:induction false} WeightedRescaled(math: Math, cols: seq<Column>, m: real, n: real, d: nat)
    requires math.Laws() && forall j :: 0 <= j < |cols| ==> d < |cols[j].value|
    ensures Weighted(math, cols, n, d) == Weighted(math, cols, m, d) * math.exp2(m - n)
  {
    hide math.Laws;
    if cols != [] {
      WeightedRescaled(math, cols[..|cols| - 1], m, n, d);
      var s, v := cols[|cols| - 1].score, cols[|cols| - 1].value[d];
      math.Adds(s - m, m - n);
      assert s - m + (m - n) == s - n;
      Rearrange(math.exp2(s - m), math.exp2(m - n), v);
    }
  }

  lemma Rearrange(a: real, b: real, v: real)
    ensures a * b * v == a * v * b
  {
  }

  lemma {:induction false} MassAppend(math: Math, a: seq<Column>, b: seq<Column>, m: real)
    ensures Mass(math, a + b, m) == Mass(math, a, m) + Mass(math, b, m)
  {
    if b == [] {
      assert a + b == a;
    } else {
      assert (a + b)[..|a + b| - 1] == a + b[..|b| - 1];
      MassAppend(math, a, b[..|b| - 1], m);
    }
  }

  lemma {:induction false} WeightedAppend(math: Math, a: seq<Column>, b: seq<Column>, m: real, d: nat)
    requires forall j :: 0 <= j < |a| ==> d < |a[j].value|
    requires forall j :: 0 <= j < |b| ==> d < |b[j].value|
    ensures Weighted(math, a + b, m, d) == Weighted(math, a, m, d) + Weighted(math, b, m, d)
  {
    if b == [] {
      assert a + b == a;
    } else {
      assert (a + b)[..|a + b| - 1] == a + b[..|b| - 1];
      WeightedAppend(math, a, b[..|b| - 1], m, d);
    }
  }

  lemma {:induction false} MassPositive(math: Math, cols: seq<Column>, m: real)
    requires math.Laws()
    ensures Mass(math, cols, m) >= 0.0 && (cols != [] ==> Mass(math, cols, m) > 0.0)
  {
    hide math.Laws;
    if cols != [] {
      MassPositive(math, cols[..|cols| - 1], m);
      math.Positive(cols[|cols| - 1].score - m);
    }
  }

  // ---------- plain attention ----------

  /** The plain softmax of the scores, applied to the values. */
  function Attention(math: Math, cols: seq<Column>, d: nat): real
    requires forall j :: 0 <= j < |cols| ==> d < |cols[j].value|
    requires Mass(math, cols, 0.0) != 0.0
  {
    Weighted(math, cols, 0.0, d) / Mass(math, cols, 0.0)
  }

  // ---------- the running state of one row ----------

  datatype Row = Row(acc: seq<real>, l: real, m: Ext)

  /** What the row state means after the columns `cols`: before the first it is the initial
      state, which leaves no trace in any later one. */
  ghost predicate Tracks(math: Math, row: Row, cols: seq<Column>, w: nat) {
    && |row.acc| == w && Wide(cols, w)
    && (cols == [] ==> row == Row(seq(w, d => 0.0), 1.0, NegInf))
    && (cols != [] ==>
          && row.m.Fin? && row.l == Mass(math, cols, row.m.v)
          && forall d :: 0 <= d < w ==> row.acc[d] == Weighted(math, cols, row.m.v, d))
  }

  // l_i * alpha + l_ij and acc * alpha + p @ v, for the reference m.
  function Absorb(math: Math, row: Row, block: seq<Column>, m: real): (r: Row)
    requires Wide(block, |row.acc|)
    ensures |r.acc| == |row.acc|
  {
    var alpha := Exp2(math, Minus(row.m, m));
    Row(seq(|row.acc|, d requires 0 <= d < |row.acc| => row.acc[d] * alpha + Weighted(math, block, m, d)),
        row.l * alpha + Mass(math, block, m), Fin(m))
  }

  /** Taking in a block keeps the meaning, whatever reference is chosen. */
  lemma AbsorbTracks(math: Math, row: Row, cols: seq<Column>, block: seq<Column>, m: real, w: nat)
    requires math.Laws() && Tracks(math, row, cols, w) && Wide(block, w) && block != []
    ensures Tracks(math, Absorb(math, row, block, m), cols + block, w)
  {
    hide math.Laws, Mass, Weighted;
    var r := Absorb(math, row, block, m);
    MassAppend(math, cols, block, m);
    if cols == [] {
      assert cols + block == block;
    } else {
      MassRescaled(math, cols, row.m.v, m);
    }
    forall d | 0 <= d < w ensures r.acc[d] == Weighted(math, cols + block, m, d) {
      WeightedAppend(math, cols, block, m, d);
      if cols != [] {
        WeightedRescaled(math, cols, row.m.v, m, d);
      }
    }
  }

  // acc / l and m + log2(l).
  function Output(math: Math, row: Row, d: nat): real
    requires d < |row.acc| && row.l != 0.0
  {
    row.acc[d] / row.l
  }

  lemma DivScaled(a: real, b: real, c: real)
    requires b > 0.0 && c > 0.0
    ensures (a * c) / (b * c) == a / b
  {
    var q := a / b;
    assert q * b == a;
    assert q * (b * c) == a * c;
  }

  lemma OutputAt(math: Math, row: Row, cols: seq<Column>, w: nat, d: nat)
    requires math.Laws() && Tracks(math, row, cols, w) && cols != [] && d < w
    ensures row.l > 0.0 && Mass(math, cols, 0.0) > 0.0
    ensures Output(math, row, d) == Attention(math, cols, d)
  {
    hide math.Laws, Mass, Weighted;
    var m := row.m.v;
    MassPositive(math, cols, m);
    MassPositive(math, cols, 0.0);
    math.Positive(0.0 - m);
    MassRescaled(math, cols, 0.0, m);
    WeightedRescaled(math, cols, 0.0, m, d);
    DivScaled(Weighted(math, cols, 0.0, d), Mass(math, cols, 0.0), math.exp2(0.0 - m));
  }

  /** The epilogue recovers plain attention and the logarithm of the total weight. */
  lemma OutputIsAttention(math: Math, row: Row, cols: seq<Column>, w: nat)
    requires math.Laws() && Tracks(math, row, cols, w) && cols != []
    ensures row.l > 0.0 && Mass(math, cols, 0.0) > 0.0
    ensures forall d :: 0 <= d < w ==> Output(math, row, d) == Attention(math, cols, d)
    ensures Plus(row.m, math.log2(row.l)) == Fin(math.log2(Mass(math, cols, 0.0)))
  {
    hide math.Laws, Mass, Weighted, Output, Attention;
    var m := row.m.v;
    MassPositive(math, cols, m);
    MassPositive(math, cols, 0.0);
    forall d | 0 <= d < w ensures Output(math, row, d) == Attention(math, cols, d) {
      OutputAt(math, row, cols, w, d);
    }
    MassRescaled(math, cols, m, 0.0);
    math.Inverse(m + math.log2(row.l), row.l);
    math.Adds(m, math.log2(row.l));
    assert m - 0.0 == m;
    assert Mass(math, cols, 0.0) == math.exp2(m + math.log2(row.l));
  }

  // ---------- the running maximum ----------

  /** The reference is the largest score seen, so no exponent is ever positive. */
  ghost predicate RunningMax(row: Row, cols: seq<Column>) {
    cols != [] ==>
      && row.m.Fin? && (forall j :: 0 <= j < |cols| ==> cols[j].score <= row.m.v)
      && exists j :: 0 <= j < |cols| && cols[j].score == row.m.v
  }

  lemma AbsorbKeepsMax(math: Math, row: Row, cols: seq<Column>, block: seq<Column>, m: real, top: real, w: nat)
    requires Tracks(math, row, cols, w) && Wide(block, w) && RunningMax(row, cols) && m == Maximum(row.m, top)
    requires (forall j :: 0 <= j < |block| ==> block[j].score <= top) && exists j :: 0 <= j < |block| && block[j].score == top
    ensures RunningMax(Absorb(math, row, block, m), cols + block)
  {
    hide Mass, Weighted;
    var all := cols + block;
    forall j | 0 <= j < |all| ensures all[j].score <= m {
      assert j >= |cols| ==> all[j] == block[j - |cols|];
    }
    if cols == [] || m == top {
      var j :| 0 <= j < |block| && block[j].score == top;
      assert all[|cols| + j].score == m;
    } else {
      var j :| 0 <= j < |cols| && cols[j].score == row.m.v;
      assert all[j].score == m;
    }
  }
}
