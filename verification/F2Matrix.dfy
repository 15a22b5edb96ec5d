/** Vectors and matrices over the two-element field, as the elimination code uses them.

A 64-bit word of the source that holds one matrix row is a sequence of its bits, lowest
bit (column 0) first.  Exclusive or of words is `Xor`, the parity of the bits a row and a
vector share is `Dot`. */
module F2Matrix {

  type Bits = seq<bool>

  type Matrix = seq<Bits>

  ghost predicate IsMatrix(m: Matrix, cols: nat) {
    forall i :: 0 <= i < |m| ==> |m[i]| == cols
  }

  function Xor(a: Bits, b: Bits): (r: Bits)
    requires |a| == |b|
    ensures |r| == |a|
    ensures forall i :: 0 <= i < |r| ==> r[i] == (a[i] != b[i])
  {
    seq(|a|, i requires 0 <= i < |a| => a[i] != b[i])
  }

  function Zero(n: nat): (r: Bits)
    ensures |r| == n && forall i :: 0 <= i < n ==> !r[i]
  {
    seq(n, i => false)
  }

  function Unit(n: nat, k: nat): (r: Bits)
    ensures |r| == n && forall i :: 0 <= i < n ==> r[i] == (i == k)
  {
    seq(n, i => i == k)
  }

  function Dot(a: Bits, x: Bits): bool
    requires |a| == |x|
  {
    if |a| == 0 then false else (a[0] && x[0]) != Dot(a[1..], x[1..])
  }

  function MatVec(m: Matrix, x: Bits): (r: Bits)
    requires IsMatrix(m, |x|)
    ensures |r| == |m|
    ensures forall i :: 0 <= i < |r| ==> r[i] == Dot(m[i], x)
  {
    seq(|m|, i requires 0 <= i < |m| => Dot(m[i], x))
  }

  // ---------- laws of Dot ----------

  lemma {:induction false} DotComm(a: Bits, x: Bits)
    requires |a| == |x|
    ensures Dot(a, x) == Dot(x, a)
  {
    if |a| > 0 {
      DotComm(a[1..], x[1..]);
    }
  }

  lemma {:induction false} DotXorLeft(a: Bits, b: Bits, x: Bits)
    requires |a| == |b| == |x|
    ensures Dot(Xor(a, b), x) == (Dot(a, x) != Dot(b, x))
  {
    if |a| > 0 {
      assert Xor(a, b)[1..] == Xor(a[1..], b[1..]);
      DotXorLeft(a[1..], b[1..], x[1..]);
    }
  }

  lemma DotXorRight(a: Bits, x: Bits, y: Bits)
    requires |a| == |x| == |y|
    ensures Dot(a, Xor(x, y)) == (Dot(a, x) != Dot(a, y))
  {
    DotComm(a, Xor(x, y));
    DotComm(a, x);
    DotComm(a, y);
    DotXorLeft(x, y, a);
  }

  // Rows and vectors that never have a 1 in the same place have Dot 0.
  lemma {:induction false} DotDisjoint(a: Bits, x: Bits)
    requires |a| == |x|
    requires forall i :: 0 <= i < |a| ==> !(a[i] && x[i])
    ensures !Dot(a, x)
  {
    if |a| > 0 {
      assert forall i :: 0 <= i < |a| - 1 ==> a[1..][i] == a[i + 1] && x[1..][i] == x[i + 1];
      DotDisjoint(a[1..], x[1..]);
    }
  }

  // If a row and a vector share exactly one place, the Dot is 1.
  lemma {:induction false} DotSingle(a: Bits, x: Bits, k: nat)
    requires |a| == |x| && k < |a| && a[k] && x[k]
    requires forall i :: 0 <= i < |a| && i != k ==> !(a[i] && x[i])
    ensures Dot(a, x)
  {
    assert forall i :: 0 <= i < |a| - 1 ==> a[1..][i] == a[i + 1] && x[1..][i] == x[i + 1];
    if k == 0 {
      DotDisjoint(a[1..], x[1..]);
    } else {
      DotSingle(a[1..], x[1..], k - 1);
    }
  }

  lemma DotUnit(a: Bits, k: nat)
    requires k < |a|
    ensures Dot(a, Unit(|a|, k)) == a[k]
    ensures Dot(Unit(|a|, k), a) == a[k]
  {
    if a[k] {
      DotSingle(a, Unit(|a|, k), k);
    } else {
      DotDisjoint(a, Unit(|a|, k));
    }
    DotComm(a, Unit(|a|, k));
  }

  lemma {:induction false} DotAppend(a: Bits, b: Bits, x: Bits, y: Bits)
    requires |a| == |x| && |b| == |y|
    ensures Dot(a + b, x + y) == (Dot(a, x) != Dot(b, y))
  {
    if |a| == 0 {
      assert a + b == b && x + y == y;
    } else {
      assert (a + b)[1..] == a[1..] + b && (x + y)[1..] == x[1..] + y;
      DotAppend(a[1..], b, x[1..], y);
    }
  }

  lemma MatVecXor(m: Matrix, x: Bits, y: Bits)
    requires |x| == |y| && IsMatrix(m, |x|)
    ensures MatVec(m, Xor(x, y)) == Xor(MatVec(m, x), MatVec(m, y))
  {
    forall i | 0 <= i < |m|
      ensures MatVec(m, Xor(x, y))[i] == Xor(MatVec(m, x), MatVec(m, y))[i]
    {
      DotXorRight(m[i], x, y);
    }
  }

  lemma MatVecZero(m: Matrix, cols: nat)
    requires IsMatrix(m, cols)
    ensures MatVec(m, Zero(cols)) == Zero(|m|)
  {
    forall i | 0 <= i < |m|
      ensures !MatVec(m, Zero(cols))[i]
    {
      DotDisjoint(m[i], Zero(cols));
    }
  }

  lemma MatVecUnit(m: Matrix, cols: nat, c: nat)
    requires IsMatrix(m, cols) && c < cols
    ensures forall i :: 0 <= i < |m| ==> MatVec(m, Unit(cols, c))[i] == m[i][c]
  {
    forall i | 0 <= i < |m|
      ensures MatVec(m, Unit(cols, c))[i] == m[i][c]
    {
      DotUnit(m[i], c);
    }
  }

  lemma XorCancel(a: Bits, b: Bits)
    requires |a| == |b|
    ensures Xor(a, Xor(a, b)) == b
    ensures Xor(a, b) == Zero(|a|) <==> a == b
  {
    if Xor(a, b) == Zero(|a|) {
      forall i | 0 <= i < |a| ensures a[i] == b[i] {
        assert !Xor(a, b)[i];
      }
    }
  }

  // ---------- elementary row operations ----------

  /** `Swap` exchanges two rows, `Add` adds (exclusive or) row `src` to another row `dst`. */
  datatype RowOp = Swap(i: nat, j: nat) | Add(src: nat, dst: nat)

  ghost predicate Applies(op: RowOp, n: nat) {
    match op
    case Swap(i, j) => i < n && j < n
    case Add(src, dst) => src < n && dst < n && src != dst
  }

  ghost predicate AllApply(ops: seq<RowOp>, n: nat) {
    forall k :: 0 <= k < |ops| ==> Applies(ops[k], n)
  }

  function ActRows(op: RowOp, m: Matrix): (r: Matrix)
    requires Applies(op, |m|)
    requires forall i, j :: 0 <= i < |m| && 0 <= j < |m| ==> |m[i]| == |m[j]|
    ensures |r| == |m|
    ensures |m| > 0 ==> IsMatrix(r, |m[0]|)
  {
    match op
    case Swap(i, j) => m[i := m[j]][j := m[i]]
    case Add(src, dst) => m[dst := Xor(m[dst], m[src])]
  }

  // What the same operation does to a vector of row values.
  function ActVec(op: RowOp, y: Bits): (r: Bits)
    requires Applies(op, |y|)
    ensures |r| == |y|
  {
    match op
    case Swap(i, j) => y[i := y[j]][j := y[i]]
    case Add(src, dst) => y[dst := y[dst] != y[src]]
  }

  function PerformRows(ops: seq<RowOp>, m: Matrix, cols: nat): (r: Matrix)
    requires AllApply(ops, |m|) && IsMatrix(m, cols)
    ensures |r| == |m| && IsMatrix(r, cols)
  {
    if |ops| == 0 then m
    else ActRows(ops[|ops| - 1], PerformRows(ops[..|ops| - 1], m, cols))
  }

  function PerformVec(ops: seq<RowOp>, y: Bits): (r: Bits)
    requires AllApply(ops, |y|)
    ensures |r| == |y|
  {
    if |ops| == 0 then y
    else ActVec(ops[|ops| - 1], PerformVec(ops[..|ops| - 1], y))
  }

  // Every elementary operation is its own inverse, so a sequence is undone backwards.
  function UndoVec(ops: seq<RowOp>, y: Bits): (r: Bits)
    requires AllApply(ops, |y|)
    ensures |r| == |y|
  {
    if |ops| == 0 then y
    else UndoVec(ops[..|ops| - 1], ActVec(ops[|ops| - 1], y))
  }

  lemma PerformRowsStep(ops: seq<RowOp>, op: RowOp, m: Matrix, cols: nat)
    requires AllApply(ops, |m|) && IsMatrix(m, cols) && Applies(op, |m|)
    ensures AllApply(ops + [op], |m|)
    ensures PerformRows(ops + [op], m, cols) == ActRows(op, PerformRows(ops, m, cols))
  {
    assert (ops + [op])[..|ops|] == ops;
  }

  lemma ActCommutes(op: RowOp, m: Matrix, x: Bits)
    requires IsMatrix(m, |x|) && Applies(op, |m|)
    ensures MatVec(ActRows(op, m), x) == ActVec(op, MatVec(m, x))
  {
    if op.Add? {
      DotXorLeft(m[op.dst], m[op.src], x);
    }
  }

  lemma {:induction false} PerformCommutes(ops: seq<RowOp>, m: Matrix, x: Bits)
    requires IsMatrix(m, |x|) && AllApply(ops, |m|)
    ensures MatVec(PerformRows(ops, m, |x|), x) == PerformVec(ops, MatVec(m, x))
  {
    if |ops| > 0 {
      var front := ops[..|ops| - 1];
      PerformCommutes(front, m, x);
      ActCommutes(ops[|ops| - 1], PerformRows(front, m, |x|), x);
    }
  }

  lemma {:induction false} UndoPerform(ops: seq<RowOp>, y: Bits)
    requires AllApply(ops, |y|)
    ensures UndoVec(ops, PerformVec(ops, y)) == y
  {
    if |ops| > 0 {
      var op, z := ops[|ops| - 1], PerformVec(ops[..|ops| - 1], y);
      assert ActVec(op, ActVec(op, z)) == z;
      UndoPerform(ops[..|ops| - 1], y);
    }
  }

  lemma {:induction false} PerformUndo(ops: seq<RowOp>, y: Bits)
    requires AllApply(ops, |y|)
    ensures PerformVec(ops, UndoVec(ops, y)) == y
  {
    if |ops| > 0 {
      var op := ops[|ops| - 1];
      PerformUndo(ops[..|ops| - 1], ActVec(op, y));
      assert ActVec(op, ActVec(op, y)) == y;
    }
  }

  lemma {:induction false} PerformZero(ops: seq<RowOp>, n: nat)
    requires AllApply(ops, n)
    ensures PerformVec(ops, Zero(n)) == Zero(n)
  {
    if |ops| > 0 {
      PerformZero(ops[..|ops| - 1], n);
      assert ActVec(ops[|ops| - 1], Zero(n)) == Zero(n);
    }
  }

  // Row operations change no solution set.
  lemma SameKernel(ops: seq<RowOp>, m: Matrix, x: Bits)
    requires IsMatrix(m, |x|) && AllApply(ops, |m|)
    ensures MatVec(PerformRows(ops, m, |x|), x) == Zero(|m|) <==> MatVec(m, x) == Zero(|m|)
  {
    PerformCommutes(ops, m, x);
    PerformZero(ops, |m|);
    UndoPerform(ops, MatVec(m, x));
    UndoPerform(ops, Zero(|m|));
  }
}
