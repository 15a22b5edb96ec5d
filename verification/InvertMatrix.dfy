/** The matrix part of LinearLayout::invertAndCompose (lib/Tools/LinearLayout.cpp:843-955):
padding both matrices, eliminating the pair side by side, checking the left block and
reading the answer off the right block. */
module InvertMatrix {
  import opened F2Matrix
  import opened Arith
  import opened Rref
  import opened Rank
  import Pigeonhole

  // ---------- getInjectiveMat ----------

  ghost predicate ZeroColumn(m: Matrix, cols: nat, c: nat)
    requires IsMatrix(m, cols)
  {
    c < cols && forall r :: 0 <= r < |m| ==> !m[r][c]
  }

  // The zero columns of `m` before column `c`, in order.
  ghost function ZeroColumns(m: Matrix, cols: nat, c: nat): (z: seq<nat>)
    requires IsMatrix(m, cols) && c <= cols
    ensures forall i :: 0 <= i < |z| ==> z[i] < c && ZeroColumn(m, cols, z[i])
    ensures forall i, j :: 0 <= i < j < |z| ==> z[i] < z[j]
    ensures forall d :: 0 <= d < c && ZeroColumn(m, cols, d) ==> d in z
  {
    if c == 0 then []
    else ZeroColumns(m, cols, c - 1) + (if ZeroColumn(m, cols, c - 1) then [c - 1] else [])
  }

  // One more row per zero column, with a single 1 in that column.
  ghost function Padding(m: Matrix, cols: nat, c: nat): (p: Matrix)
    requires IsMatrix(m, cols) && c <= cols
    ensures IsMatrix(p, cols)
  {
    var z := ZeroColumns(m, cols, c);
    seq(|z|, i requires 0 <= i < |z| => Unit(cols, z[i]))
  }

  ghost function Padded(m: Matrix, cols: nat): (p: Matrix)
    requires IsMatrix(m, cols)
    ensures IsMatrix(p, cols) && |p| >= |m|
  {
    m + Padding(m, cols, cols)
  }

  // Rows that only look at places where x and y agree cannot tell them apart.
  lemma DotAgrees(a: Bits, x: Bits, y: Bits)
    requires |a| == |x| == |y|
    requires forall i :: 0 <= i < |a| && a[i] ==> x[i] == y[i]
    ensures Dot(a, x) == Dot(a, y)
  {
    DotXorRight(a, x, y);
    DotDisjoint(a, Xor(x, y));
  }

  lemma PaddedValue(m: Matrix, cols: nat, x: Bits)
    requires IsMatrix(m, cols) && |x| == cols
    ensures var z := ZeroColumns(m, cols, cols);
            |Padded(m, cols)| == |m| + |z| &&
            MatVec(Padded(m, cols), x) == MatVec(m, x) + seq(|z|, i requires 0 <= i < |z| => x[z[i]])
  {
    hide Dot, ZeroColumns;
    var z := ZeroColumns(m, cols, cols);
    forall i | 0 <= i < |z|
      ensures MatVec(Padded(m, cols), x)[|m| + i] == x[z[i]]
    {
      DotUnit(x, z[i]);
    }
  }

  // The zero columns are free to serve the rows that padding adds.
  lemma PaddedSolution(m: Matrix, cols: nat, x: Bits, v: Bits)
    requires IsMatrix(m, cols) && |x| == cols && |v| == |ZeroColumns(m, cols, cols)|
    ensures MatVec(Padded(m, cols), SetAt(x, ZeroColumns(m, cols, cols), v)) == MatVec(m, x) + v
  {
    hide Dot, ZeroColumns, Padded, SetAt;
    var z := ZeroColumns(m, cols, cols);
    var w := SetAt(x, z, v);
    forall r | 0 <= r < |m|
      ensures Dot(m[r], w) == Dot(m[r], x)
    {
      forall c | 0 <= c < cols && m[r][c]
        ensures w[c] == x[c]
      {
        SetAtOther(x, z, v, c);
      }
      DotAgrees(m[r], w, x);
    }
    forall i | 0 <= i < |z|
      ensures w[z[i]] == v[i]
    {
      SetAtValue(x, z, v, i);
    }
    PaddedValue(m, cols, w);
    assert MatVec(m, w) == MatVec(m, x);
    assert v == seq(|z|, i requires 0 <= i < |z| => w[z[i]]);
  }

  lemma PaddedReaches(m: Matrix, cols: nat, y: Bits)
    requires IsMatrix(m, cols) && |y| == |m| + |ZeroColumns(m, cols, cols)|
    requires Reachable(m, cols, y[..|m|])
    ensures Reachable(Padded(m, cols), cols, y)
  {
    hide *;
    var x := Preimage(m, cols, y[..|m|]);
    PaddedSolution(m, cols, x, y[|m|..]);
    assert y == y[..|m|] + y[|m|..];
    ReachableBy(Padded(m, cols), cols, SetAt(x, ZeroColumns(m, cols, cols), y[|m|..]), y);
  }

  lemma Preimage(m: Matrix, cols: nat, y: Bits) returns (x: Bits)
    requires IsMatrix(m, cols) && Reachable(m, cols, y)
    ensures |x| == cols && MatVec(m, x) == y
  {
    hide MatVec;
    x :| |x| == cols && Solves(m, x, y);
  }

  lemma ReachableBy(m: Matrix, cols: nat, x: Bits, y: Bits)
    requires IsMatrix(m, cols) && |x| == cols && MatVec(m, x) == y
    ensures Reachable(m, cols, y)
  {
    hide MatVec;
    assert Solves(m, x, y);
  }

  lemma PaddedOnto(m: Matrix, cols: nat)
    requires IsMatrix(m, cols) && Onto(m, cols)
    ensures Onto(Padded(m, cols), cols)
  {
    forall y: Bits | |y| == |Padded(m, cols)|
      ensures Reachable(Padded(m, cols), cols, y)
    {
      assert Reachable(m, cols, y[..|m|]);
      PaddedReaches(m, cols, y);
    }
  }

  // `x` with x[z[i]] replaced by v[i].
  ghost function SetAt(x: Bits, z: seq<nat>, v: Bits): (r: Bits)
    requires |z| == |v| && forall i :: 0 <= i < |z| ==> z[i] < |x|
    ensures |r| == |x|
  {
    if |z| == 0 then x
    else SetAt(x, z[..|z| - 1], v[..|z| - 1])[z[|z| - 1] := v[|z| - 1]]
  }

  lemma {:induction false} SetAtOther(x: Bits, z: seq<nat>, v: Bits, c: nat)
    requires |z| == |v| && forall i :: 0 <= i < |z| ==> z[i] < |x|
    requires c < |x| && forall i :: 0 <= i < |z| ==> z[i] != c
    ensures SetAt(x, z, v)[c] == x[c]
  {
    if |z| > 0 {
      SetAtOther(x, z[..|z| - 1], v[..|z| - 1], c);
    }
  }

  lemma {:induction false} SetAtValue(x: Bits, z: seq<nat>, v: Bits, i: nat)
    requires |z| == |v| && forall i :: 0 <= i < |z| ==> z[i] < |x|
    requires i < |z| && forall i, j :: 0 <= i < j < |z| ==> z[i] < z[j]
    ensures SetAt(x, z, v)[z[i]] == v[i]
  {
    if i < |z| - 1 {
      SetAtValue(x, z[..|z| - 1], v[..|z| - 1], i);
    }
  }

  lemma OntoIsWide(m: Matrix, cols: nat)
    requires IsMatrix(m, cols) && Onto(m, cols)
    ensures |m| <= cols
  {
    var f := (x: Bits) => if |x| == cols && IsMatrix(m, |x|) then MatVec(m, x) else x;
    forall y: Bits | |y| == |m|
      ensures exists x: Bits :: |x| == cols && f(x) == y
    {
      assert Reachable(m, cols, y);
      var x: Bits :| |x| == cols && Solves(m, x, y);
      assert f(x) == y;
    }
    Pigeonhole.OntoNeedsWidth(cols, |m|, f);
  }

  // ---------- the combined matrix ----------

  function RowOr0(m: Matrix, cols: nat, r: nat): (row: Bits)
    requires IsMatrix(m, cols)
    ensures |row| == cols
  {
    if r < |m| then m[r] else Zero(cols)
  }

  // `left` with `right` to its right; the shorter one is filled up with zero rows.
  function Combined(left: Matrix, nl: nat, right: Matrix, nr: nat): (m: Matrix)
    requires IsMatrix(left, nl) && IsMatrix(right, nr)
    ensures IsMatrix(m, nl + nr) && |m| == Max(|left|, |right|)
  {
    seq(Max(|left|, |right|), r requires 0 <= r => RowOr0(left, nl, r) + RowOr0(right, nr, r))
  }

  lemma CombinedValue(left: Matrix, nl: nat, right: Matrix, nr: nat, x: Bits, y: Bits)
    requires IsMatrix(left, nl) && IsMatrix(right, nr) && |x| == nl && |y| == nr
    ensures forall r :: 0 <= r < Max(|left|, |right|) ==>
              MatVec(Combined(left, nl, right, nr), x + y)[r] ==
              ((r < |left| && Dot(left[r], x)) != (r < |right| && Dot(right[r], y)))
  {
    forall r | 0 <= r < Max(|left|, |right|)
      ensures MatVec(Combined(left, nl, right, nr), x + y)[r] ==
              ((r < |left| && Dot(left[r], x)) != (r < |right| && Dot(right[r], y)))
    {
      DotAppend(RowOr0(left, nl, r), RowOr0(right, nr, r), x, y);
      if r >= |left| { DotDisjoint(RowOr0(left, nl, r), x); }
      if r >= |right| { DotDisjoint(RowOr0(right, nr, r), y); }
    }
  }

  // The check made before the answer is read off.
  ghost predicate LeftIsIdentity(red: Matrix, cols: nat, n: nat)
    requires IsMatrix(red, cols) && n <= cols && n <= |red|
  {
    forall r, c :: 0 <= r < n && 0 <= c < n ==> red[r][c] == (r == c)
  }

  /** Column `c` of the answer, read from the right block of the reduced matrix. */
  function ReadOff(red: Matrix, nl: nat, nr: nat, rowsLeft: nat, c: nat): (x: Bits)
    requires IsMatrix(red, nl + nr) && c < nr && rowsLeft <= |red|
    ensures |x| == nl
  {
    seq(nl, r requires 0 <= r < nl => r < rowsLeft && red[r][nl + c])
  }

  function Column(m: Matrix, cols: nat, c: nat): (y: Bits)
    requires IsMatrix(m, cols) && c < cols
    ensures |y| == |m|
  {
    seq(|m|, r requires 0 <= r < |m| => m[r][c])
  }

  lemma LeftIdentityRow(row: Bits, n: nat, r: nat, x: Bits)
    requires n <= |row| == |x| && r < n
    requires forall c :: 0 <= c < n ==> row[c] == (r == c)
    requires forall c :: n <= c < |x| ==> !x[c]
    ensures Dot(row, x) == x[r]
  {
    if x[r] {
      DotSingle(row, x, r);
    } else {
      DotDisjoint(row, x);
    }
  }

  // The first n row values may be 1, the others are 0.
  ghost predicate OnlyFirst(y: Bits, n: nat) {
    forall i :: n <= i < |y| ==> !y[i]
  }

  lemma SplitFirst(y: Bits, n: nat)
    requires n <= |y| && OnlyFirst(y, n)
    ensures y == y[..n] + Zero(|y| - n)
  {
  }

  lemma ZeroAppend(a: nat, b: nat)
    ensures Zero(a) + Zero(b) == Zero(a + b)
  {
  }

  lemma OnlyFirstAppend(x: Bits, k: nat, n: nat)
    requires OnlyFirst(x, n)
    ensures OnlyFirst(x + Zero(k), n)
  {
  }

  lemma OnlyFirstPad(x: Bits, k: nat)
    ensures OnlyFirst(x + Zero(k), |x|)
  {
  }

  lemma PadCancels(b: Bits, c: Bits, k: nat)
    requires |b| == |c| && b + Zero(k) == c + Zero(k)
    ensures b == c
  {
    assert b == (b + Zero(k))[..|b|];
    assert c == (c + Zero(k))[..|b|];
  }

  lemma AppendIsZero(x: Bits, k: nat)
    requires x + Zero(k) == Zero(|x| + k)
    ensures x == Zero(|x|)
  {
    assert forall i :: 0 <= i < |x| ==> (x + Zero(k))[i] == x[i];
  }

  lemma AllZero(y: Bits)
    requires forall i :: 0 <= i < |y| ==> !y[i]
    ensures y == Zero(|y|)
  {
  }

  // The undone vector, cut to the length it had before it was filled up with zeros.
  ghost function Shrink(ops: seq<RowOp>, u: Bits, rows: nat): (r: Bits)
    requires AllApply(ops, rows) && |u| <= rows
    ensures |r| == |u|
  {
    UndoVec(ops, u + Zero(rows - |u|))[..|u|]
  }

  lemma ShrunkIsUndone(ops: seq<RowOp>, u: Bits, rows: nat)
    requires AllApply(ops, rows) && |u| <= rows && OnlyFirst(UndoVec(ops, u + Zero(rows - |u|)), |u|)
    ensures PerformVec(ops, Shrink(ops, u, rows) + Zero(rows - |u|)) == u + Zero(rows - |u|)
  {
    hide AllApply, UndoVec, PerformVec, OnlyFirst;
    PerformUndo(ops, u + Zero(rows - |u|));
    SplitFirst(UndoVec(ops, u + Zero(rows - |u|)), |u|);
  }

  // A column of the right block that stays within the rows of an onto left block can be cancelled.
  lemma CancelColumn(left: Matrix, nl: nat, right: Matrix, nr: nat, c: nat) returns (z: Bits)
    requires IsMatrix(left, nl) && IsMatrix(right, nr) && Onto(left, nl) && c < nr
    requires OnlyFirst(Column(right, nr, c), |left|)
    ensures |z| == nl
    ensures MatVec(Combined(left, nl, right, nr), z + Unit(nr, c)) == Zero(Max(|left|, |right|))
  {
    var col := Column(right, nr, c);
    var y := seq(|left|, i requires 0 <= i => i < |col| && col[i]);
    assert Reachable(left, nl, y);
    z :| |z| == nl && Solves(left, z, y);
    CombinedValue(left, nl, right, nr, z, Unit(nr, c));
    forall r | 0 <= r < Max(|left|, |right|)
      ensures !MatVec(Combined(left, nl, right, nr), z + Unit(nr, c))[r]
    {
      if r < |right| {
        DotUnit(right[r], c);
        assert col[r] == right[r][c];
      }
      if r < |left| {
        assert MatVec(left, z)[r] == y[r];
      }
    }
  }

  // A padding row of the right block below the left block reads off a single bit.
  lemma LowPaddingRow(left: Matrix, nl: nat, self: Matrix, nr: nat, s: nat, c: nat)
    requires IsMatrix(left, nl) && IsMatrix(self, nr) && |self| <= |left| && c < nr
    requires |left| <= s < |Padded(self, nr)| && Padded(self, nr)[s][c]
    ensures ZeroColumn(self, nr, c)
    ensures Combined(left, nl, Padded(self, nr), nr)[s] == Unit(nl + nr, nl + c)
  {
    var z := ZeroColumns(self, nr, nr);
    assert Padded(self, nr)[s] == Unit(nr, z[s - |self|]);
  }

  lemma PivotReadOff(red: Matrix, nl: nat, nr: nat, rank: nat, n: nat, c: nat)
    requires Reduced(red, nl + nr, rank) && n <= |red| && n <= nl && c < nr && IsPivot(red, rank, nl + c)
    requires forall r :: 0 <= r < n ==> Lead(red[r]) == r
    ensures ReadOff(red, nl, nr, n, c) == Zero(nl)
  {
    hide Dot;
    forall r | 0 <= r < n
      ensures !red[r][nl + c]
    {
      PivotColumnIsClear(red, nl + nr, rank, nl + c, r);
    }
  }

  // If each of the first n columns leads a row, column p leads row p.
  lemma {:induction false} LeadingPivotRow(red: Matrix, cols: nat, rank: nat, n: nat, p: nat)
    requires Reduced(red, cols, rank) && p < n <= cols
    requires forall c :: 0 <= c < n ==> IsPivot(red, rank, c)
    ensures p < rank && Lead(red[p]) == p
  {
    var i := PivotRow(red, rank, p);
    assert IsPivot(red, rank, p);
    if p > 0 {
      LeadingPivotRow(red, cols, rank, n, p - 1);
    }
    IncreasingLeads(red, cols, rank, p, i);
  }

  lemma IncreasingLeads(red: Matrix, cols: nat, rank: nat, p: nat, i: nat)
    requires Reduced(red, cols, rank) && i < rank && Lead(red[i]) == p
    requires p > 0 ==> p - 1 < rank && Lead(red[p - 1]) == p - 1
    ensures i == p
  {
    assert forall k :: 0 <= k < p ==> Lead(red[k]) < p;
    assert p < rank ==> Lead(red[p]) >= p;
    assert forall k :: p < k < rank ==> Lead(red[k]) > Lead(red[p]);
  }

  lemma PivotsGiveIdentity(red: Matrix, cols: nat, rank: nat, n: nat)
    requires Reduced(red, cols, rank) && n <= cols && n <= |red|
    requires forall c :: 0 <= c < n ==> IsPivot(red, rank, c)
    ensures LeftIsIdentity(red, cols, n)
  {
    forall r, c | 0 <= r < n && 0 <= c < n
      ensures red[r][c] == (r == c)
    {
      LeadingPivotRow(red, cols, rank, n, c);
    }
  }

  // Row c is the row that leads in column c of the identity block.
  lemma IdentityColumnIsPivot(red: Matrix, cols: nat, rank: nat, n: nat, c: nat)
    requires Reduced(red, cols, rank) && c < n <= cols && n <= |red| && LeftIsIdentity(red, cols, n)
    ensures c < rank && Lead(red[c]) == c
    ensures forall s :: 0 <= s < |red| && s != c ==> !red[s][c]
  {
    assert red[c][c];
    LeadIs(red[c], c);
  }

  lemma IdentityRow(red: Matrix, cols: nat, rank: nat, n: nat, r: nat)
    requires Reduced(red, cols, rank) && n <= cols && n <= |red| && LeftIsIdentity(red, cols, n) && r < |red|
    ensures |red[r]| == cols
    ensures forall c :: 0 <= c < n ==> red[r][c] == (r == c)
  {
    forall c | 0 <= c < n
      ensures red[r][c] == (r == c)
    {
      IdentityColumnIsPivot(red, cols, rank, n, c);
    }
  }

  lemma IdentityRowValue(row: Bits, n: nat, r: nat, x: Bits)
    requires n <= |row| == |x| && OnlyFirst(x, n)
    requires forall c :: 0 <= c < n ==> row[c] == (r == c)
    ensures Dot(row, x) == (r < n && x[r])
  {
    if r < n {
      LeftIdentityRow(row, n, r, x);
    } else {
      DotDisjoint(row, x);
    }
  }

  // What the reduced matrix makes of a vector supported on the identity columns.
  lemma IdentityValue(red: Matrix, cols: nat, rank: nat, n: nat, x: Bits)
    requires Reduced(red, cols, rank) && n <= cols && n <= |red| && LeftIsIdentity(red, cols, n)
    requires |x| == cols && OnlyFirst(x, n)
    ensures MatVec(red, x) == x[..n] + Zero(|red| - n)
  {
    hide LeftIsIdentity, OnlyFirst, Dot, Lead;
    forall r | 0 <= r < |red|
      ensures Dot(red[r], x) == (r < n && x[r])
    {
      IdentityRow(red, cols, rank, n, r);
      IdentityRowValue(red[r], n, r, x);
    }
  }

  // So none of them but 0 is sent to 0.
  lemma IdentityKernel(red: Matrix, cols: nat, rank: nat, n: nat, x: Bits)
    requires Reduced(red, cols, rank) && n <= cols && n <= |red| && LeftIsIdentity(red, cols, n)
    requires |x| == cols && OnlyFirst(x, n) && MatVec(red, x) == Zero(|red|)
    ensures x == Zero(cols)
  {
    hide Reduced, LeftIsIdentity, MatVec, Dot;
    IdentityValue(red, cols, rank, n, x);
    var y := x[..n];
    assert forall i :: 0 <= i < n ==> (y + Zero(|red| - n))[i] == x[i];
  }

  // x combines only the first |Padded(outer)| columns, and the padded matrix sends it to 0.
  ghost predicate InLeadingKernel(outer: Matrix, nl: nat, x: Bits)
    requires IsMatrix(outer, nl)
  {
    var n := |Padded(outer, nl)|;
    |x| == nl && OnlyFirst(x, n) && MatVec(Padded(outer, nl), x) == Zero(n)
  }

  /** The first columns of the padded matrix, as many as it has rows, are linearly independent. */
  ghost predicate LeadingColumnsIndependent(outer: Matrix, nl: nat)
    requires IsMatrix(outer, nl)
  {
    forall x: Bits :: InLeadingKernel(outer, nl, x) ==> x == Zero(nl)
  }

  // x combines only non-zero columns, and the matrix sends it to 0.
  ghost predicate InNonZeroKernel(outer: Matrix, nl: nat, x: Bits)
    requires IsMatrix(outer, nl)
  {
    && |x| == nl && MatVec(outer, x) == Zero(|outer|)
    && forall c :: 0 <= c < nl && x[c] ==> !ZeroColumn(outer, nl, c)
  }

  ghost predicate NonZeroColumnsIndependent(outer: Matrix, nl: nat)
    requires IsMatrix(outer, nl)
  {
    forall x: Bits :: InNonZeroKernel(outer, nl, x) ==> x == Zero(nl)
  }

  lemma PaddedKernel(outer: Matrix, nl: nat, x: Bits)
    requires IsMatrix(outer, nl) && InLeadingKernel(outer, nl, x)
    ensures InNonZeroKernel(outer, nl, x)
  {
    hide Dot, Padded, ZeroColumn;
    var z := ZeroColumns(outer, nl, nl);
    PaddedValue(outer, nl, x);
    var b := seq(|z|, i requires 0 <= i < |z| => x[z[i]]);
    ZeroSplit(MatVec(outer, x), b);
    forall i | 0 <= i < |z|
      ensures !x[z[i]]
    {
      assert !b[i];
    }
  }

  lemma ZeroSplit(a: Bits, b: Bits)
    requires a + b == Zero(|a| + |b|)
    ensures a == Zero(|a|)
    ensures forall i :: 0 <= i < |b| ==> !b[i]
  {
    assert forall i :: 0 <= i < |a| ==> (a + b)[i] == a[i];
    assert forall i :: 0 <= i < |b| ==> (a + b)[|a| + i] == b[i];
  }

  /** Independent non-zero columns are enough. */
  lemma IndependentColumnsSuffice(outer: Matrix, nl: nat)
    requires IsMatrix(outer, nl) && NonZeroColumnsIndependent(outer, nl)
    ensures LeadingColumnsIndependent(outer, nl)
  {
    forall x: Bits | InLeadingKernel(outer, nl, x)
      ensures x == Zero(nl)
    {
      PaddedKernel(outer, nl, x);
    }
  }

  // ---------- fewer out bits than the outer matrix ----------

  // The first h rows of the padded matrix, filled up with zero rows.
  ghost function Lift(m: Matrix, cols: nat, h: nat): (r: Matrix)
    requires IsMatrix(m, cols) && |m| <= h
    ensures IsMatrix(r, cols) && |r| == h
  {
    seq(h, i requires 0 <= i < h => RowOr0(Padded(m, cols), cols, i))
  }

  function Drop(z: seq<nat>, j: nat): seq<nat> {
    if j <= |z| then z[j..] else []
  }

  lemma {:induction false} ZeroColumnsPrefix(m: Matrix, cols: nat, c: nat)
    requires IsMatrix(m, cols) && c <= cols
    ensures ZeroColumns(m, cols, c) <= ZeroColumns(m, cols, cols)
    decreases cols - c
  {
    if c < cols {
      ZeroColumnsPrefix(m, cols, c + 1);
    }
  }

  // The padding rows that fall within the first h rows fill their zero columns.
  lemma LiftedColumn(m: Matrix, cols: nat, h: nat, i: nat)
    requires IsMatrix(m, cols) && |m| <= h && i < |ZeroColumns(m, cols, cols)|
    ensures ZeroColumn(Lift(m, cols, h), cols, ZeroColumns(m, cols, cols)[i]) <==> h - |m| <= i
  {
    hide ZeroColumns, Dot;
    var z, l := ZeroColumns(m, cols, cols), Lift(m, cols, h);
    if i < h - |m| {
      LiftedRow(m, cols, h, |m| + i);
      assert l[|m| + i][z[i]];
    } else {
      forall r | 0 <= r < h
        ensures !l[r][z[i]]
      {
        LiftedRow(m, cols, h, r);
      }
    }
  }

  lemma LiftedRow(m: Matrix, cols: nat, h: nat, r: nat)
    requires IsMatrix(m, cols) && |m| <= h && r < h && r - |m| < |ZeroColumns(m, cols, cols)|
    ensures Lift(m, cols, h)[r] == if r < |m| then m[r] else Unit(cols, ZeroColumns(m, cols, cols)[r - |m|])
  {
    hide ZeroColumns, ZeroColumn;
  }

  lemma LiftedAt(m: Matrix, cols: nat, h: nat, c: nat)
    requires IsMatrix(m, cols) && |m| <= h && c < cols
    ensures ZeroColumn(Lift(m, cols, h), cols, c) <==>
            ZeroColumn(m, cols, c) && h - |m| <= |ZeroColumns(m, cols, c)|
  {
    if ZeroColumn(m, cols, c) {
      var i := |ZeroColumns(m, cols, c)|;
      ZeroColumnsPrefix(m, cols, c + 1);
      assert ZeroColumns(m, cols, c + 1)[i] == c;
      LiftedColumn(m, cols, h, i);
    } else {
      var r :| 0 <= r < |m| && m[r][c];
      assert Lift(m, cols, h)[r] == m[r];
    }
  }

  lemma DropSnoc(z: seq<nat>, j: nat, c: nat)
    ensures Drop(z + [c], j) == Drop(z, j) + (if j <= |z| then [c] else [])
  {
  }

  lemma {:induction false} LiftZeroColumns(m: Matrix, cols: nat, h: nat, c: nat)
    requires IsMatrix(m, cols) && |m| <= h && c <= cols
    ensures ZeroColumns(Lift(m, cols, h), cols, c) == Drop(ZeroColumns(m, cols, c), h - |m|)
  {
    hide Lift, ZeroColumn, Padded, Padding, Unit;
    if c > 0 {
      LiftZeroColumns(m, cols, h, c - 1);
      LiftedAt(m, cols, h, c - 1);
      DropSnoc(ZeroColumns(m, cols, c - 1), h - |m|, c - 1);
    }
  }

  lemma LiftRow(m: Matrix, cols: nat, h: nat, r: nat)
    requires IsMatrix(m, cols) && |m| <= h
    ensures |Padded(Lift(m, cols, h), cols)| == Max(h, |Padded(m, cols)|)
    ensures RowOr0(Padded(Lift(m, cols, h), cols), cols, r) == RowOr0(Padded(m, cols), cols, r)
  {
    hide ZeroColumn, ZeroColumns, Dot;
    LiftZeroColumns(m, cols, h, cols);
    var z := ZeroColumns(m, cols, cols);
    if h <= r < |m| + |z| {
      assert Padded(m, cols)[r] == Unit(cols, z[r - |m|]);
      assert Padded(Lift(m, cols, h), cols)[r] == Unit(cols, Drop(z, h - |m|)[r - h]);
    }
  }

  // Next to a left block of h or more rows, the lifted matrix combines like the matrix itself.
  lemma LiftCombined(left: Matrix, nl: nat, m: Matrix, cols: nat, h: nat)
    requires IsMatrix(left, nl) && IsMatrix(m, cols) && |m| <= h <= |left|
    ensures Combined(left, nl, Padded(Lift(m, cols, h), cols), cols) == Combined(left, nl, Padded(m, cols), cols)
  {
    LiftRow(m, cols, h, 0);
    forall r | 0 <= r < Max(|left|, |Padded(m, cols)|)
      ensures RowOr0(Padded(Lift(m, cols, h), cols), cols, r) == RowOr0(Padded(m, cols), cols, r)
    {
      LiftRow(m, cols, h, r);
    }
  }

  // One column of the lifted matrix: the column itself, then zeros - except that the first zero
  // columns get a 1 in a row that belongs to the left block.
  lemma LiftColumn(m: Matrix, cols: nat, h: nat, c: nat)
    requires IsMatrix(m, cols) && |m| <= h && c < cols
    ensures forall r :: 0 <= r < |m| ==> Lift(m, cols, h)[r][c] == m[r][c]
    ensures !ZeroColumn(m, cols, c) ==> Column(Lift(m, cols, h), cols, c) == Column(m, cols, c) + Zero(h - |m|)
    ensures ZeroColumn(m, cols, c) && h > |m| ==>
              exists d :: 0 <= d < cols && ZeroColumn(m, cols, d) && Lift(m, cols, h)[|m|][d]
  {
    hide Dot, ZeroColumns;
    if ZeroColumn(m, cols, c) && h > |m| {
      FirstPaddingRow(m, cols, h, c);
    }
  }

  lemma FirstPaddingRow(m: Matrix, cols: nat, h: nat, c: nat)
    requires IsMatrix(m, cols) && |m| < h && ZeroColumn(m, cols, c)
    ensures exists d :: 0 <= d < cols && ZeroColumn(m, cols, d) && Lift(m, cols, h)[|m|][d]
  {
    hide Dot;
    var z := ZeroColumns(m, cols, cols);
    assert c in z;
    assert Lift(m, cols, h)[|m|] == Unit(cols, z[0]);
  }

  lemma PaddingRow(m: Matrix, cols: nat, k: nat)
    requires IsMatrix(m, cols) && k < |ZeroColumns(m, cols, cols)|
    ensures |Padded(m, cols)| == |m| + |ZeroColumns(m, cols, cols)|
    ensures Padded(m, cols)[|m| + k] == Unit(cols, ZeroColumns(m, cols, cols)[k])
  {
    hide ZeroColumns, ZeroColumn;
  }

  lemma PaddedSize(m: Matrix, cols: nat)
    requires IsMatrix(m, cols)
    ensures |Padded(m, cols)| == |m| + |ZeroColumns(m, cols, cols)|
  {
    hide ZeroColumns, ZeroColumn;
  }

  // Where a vector of the combined kernel stands at a padding row of both matrices.
  lemma PaddingMeets(outer: Matrix, nl: nat, self: Matrix, nr: nat, a: Bits, c: nat, k: nat)
    requires IsMatrix(outer, nl) && IsMatrix(self, nr) && |outer| == |self| && |a| == nl && c < nr
    requires k < |ZeroColumns(outer, nl, nl)|
    requires var m := Combined(Padded(outer, nl), nl, Padded(self, nr), nr); MatVec(m, a + Unit(nr, c)) == Zero(|m|)
    ensures a[ZeroColumns(outer, nl, nl)[k]] <==> k < |ZeroColumns(self, nr, nr)| && ZeroColumns(self, nr, nr)[k] == c
  {
    var left, right, r := Padded(outer, nl), Padded(self, nr), |outer| + k;
    hide ZeroColumns, ZeroColumn, Padded, Combined, Dot;
    PaddingRow(outer, nl, k);
    PaddedSize(self, nr);
    CombinedValue(left, nl, right, nr, a, Unit(nr, c));
    ZeroAt(Combined(left, nl, right, nr), a + Unit(nr, c), r);
    DotUnit(a, ZeroColumns(outer, nl, nl)[k]);
    if k < |ZeroColumns(self, nr, nr)| {
      PaddingRow(self, nr, k);
      DotUnit(Unit(nr, c), ZeroColumns(self, nr, nr)[k]);
    }
  }

  lemma ZeroAt(m: Matrix, x: Bits, r: nat)
    requires IsMatrix(m, |x|) && r < |m| && MatVec(m, x) == Zero(|m|)
    ensures !MatVec(m, x)[r]
  {
  }

  // A zero column that is padded below the left block comes after those padded beside it.
  lemma LaterZeroColumn(outer: Matrix, nl: nat, self: Matrix, nr: nat, c: nat, s: nat)
    requires IsMatrix(outer, nl) && IsMatrix(self, nr) && |outer| == |self| && c < nr
    requires |Padded(outer, nl)| <= s < |Padded(self, nr)| && Padded(self, nr)[s][c]
    ensures forall k :: 0 <= k < |ZeroColumns(outer, nl, nl)| && k < |ZeroColumns(self, nr, nr)| ==> ZeroColumns(self, nr, nr)[k] != c
  {
    hide ZeroColumn;
    PaddedSize(outer, nl);
    PaddedSize(self, nr);
    PaddingRow(self, nr, s - |self|);
  }

  /** One run of the elimination: `outer` and `self` have the same rows (out bits), `nl` and
      `nr` columns (in bits); `red` is what elimination makes of the combined padded matrix. */
  datatype Run = Run(outer: Matrix, nl: nat, self: Matrix, nr: nat, red: Matrix, ops: seq<RowOp>, rank: nat) {

    ghost predicate Shaped() {
      IsMatrix(outer, nl) && IsMatrix(self, nr) && |outer| == |self|
    }

    // Rows of the padded outer matrix.
    ghost function N(): nat requires Shaped() {
      |Padded(outer, nl)|
    }

    ghost function Start(): (m: Matrix)
      requires Shaped()
      ensures IsMatrix(m, nl + nr) && |m| >= N()
    {
      Combined(Padded(outer, nl), nl, Padded(self, nr), nr)
    }

    ghost predicate Valid() {
      && Shaped()
      && Onto(outer, nl)
      && ReducedFrom(red, Start(), nl + nr, ops, rank)
    }

    // The identity check succeeded.
    ghost predicate Passed() {
      Valid() && N() <= nl && LeftIsIdentity(red, nl + nr, N())
    }

    // The sizes that go with a run that passed.
    lemma PassedShape()
      requires Passed()
      ensures Valid() && Shaped() && IsMatrix(red, nl + nr) && N() <= |red| == |Start()| && N() <= nl
      ensures AllApply(ops, |red|) && red == PerformRows(ops, Start(), nl + nr)
      ensures Reduced(red, nl + nr, rank) && LeftIsIdentity(red, nl + nr, N())
    {
    }

    lemma OuterIsWide()
      requires Valid()
      ensures N() <= nl
    {
      PaddedOnto(outer, nl);
      OntoIsWide(Padded(outer, nl), nl);
    }

    // What the combined matrix makes of an input whose right part is 0.
    lemma LeftValue(z: Bits)
      requires Shaped() && |z| == nl
      ensures MatVec(Start(), z + Zero(nr)) == MatVec(Padded(outer, nl), z) + Zero(|Start()| - N())
    {
      var v := z + Zero(nr);
      CombinedValue(Padded(outer, nl), nl, Padded(self, nr), nr, z, Zero(nr));
      forall i | 0 <= i < |Start()|
        ensures MatVec(Start(), v)[i] == (i < N() && Dot(Padded(outer, nl)[i], z))
      {
        if i < |Padded(self, nr)| {
          DotDisjoint(Padded(self, nr)[i], Zero(nr));
        }
      }
    }

    lemma IdentityLeads()
      requires Passed()
      ensures forall r :: 0 <= r < N() ==> Lead(red[r]) == r
    {
      hide *;
      PassedShape();
      forall r | 0 <= r < N()
        ensures Lead(red[r]) == r
      {
        IdentityColumnIsPivot(red, nl + nr, rank, N(), r);
      }
    }

    // Undoing the elimination keeps vectors supported on the first N() rows so supported.
    lemma UndoKeepsFirst(y: Bits)
      requires Passed() && |y| == |red| && OnlyFirst(y, N())
      ensures OnlyFirst(UndoVec(ops, y), N())
    {
      PassedShape();
      var z := y[..N()] + Zero(nl - N());
      hide *;
      IdentityReaches(y, z);
      UndoRed(z);
      StartOnlyFirst(z);
    }

    // Every vector supported on the first N() rows is what the reduced matrix makes of some left part.
    lemma IdentityReaches(y: Bits, z: Bits)
      requires Passed() && |y| == |red| && OnlyFirst(y, N()) && N() <= |y| && z == y[..N()] + Zero(nl - N())
      ensures MatVec(red, z + Zero(nr)) == y
    {
      hide *;
      PassedShape();
      OnlyFirstPad(y[..N()], nl - N());
      OnlyFirstAppend(z, nr, N());
      IdentityValue(red, nl + nr, rank, N(), z + Zero(nr));
      SplitFirst(y, N());
      assert (z + Zero(nr))[..N()] == y[..N()];
    }

    lemma UndoRed(z: Bits)
      requires Passed() && |z| == nl
      ensures UndoVec(ops, MatVec(red, z + Zero(nr))) == MatVec(Start(), z + Zero(nr))
    {
      hide *;
      PassedShape();
      UndoImage(red, Start(), nl + nr, ops, z + Zero(nr));
    }

    lemma StartOnlyFirst(z: Bits)
      requires Shaped() && |z| == nl
      ensures OnlyFirst(MatVec(Start(), z + Zero(nr)), N())
    {
      LeftValue(z);
      hide Dot, Shaped, N, Start;
    }

    lemma ShrinkIsUndo(u: Bits)
      requires Passed() && |u| == N()
      ensures PerformVec(ops, Shrink(ops, u, |red|) + Zero(|red| - N())) == u + Zero(|red| - N())
    {
      hide *;
      PassedShape();
      OnlyFirstPad(u, |red| - N());
      UndoKeepsFirst(u + Zero(|red| - N()));
      ShrunkIsUndone(ops, u, |red|);
    }

    // So does the elimination itself, because an injection of a finite set into itself is onto.
    lemma PerformKeepsFirst(y: Bits)
      requires Passed() && |y| == |red| && OnlyFirst(y, N())
      ensures OnlyFirst(PerformVec(ops, y), N())
    {
      hide *;
      PassedShape();
      var f := (u: Bits) => if Passed() && |u| == N() then Shrink(ops, u, |red|) else u;
      forall b: Bits, c: Bits | |b| == N() && |c| == N() && f(b) == f(c)
        ensures b == c
      {
        ShrinkIsUndo(b);
        ShrinkIsUndo(c);
        PadCancels(b, c, |red| - N());
      }
      var u := Pigeonhole.InjectiveIsOnto(N(), f, y[..N()]);
      ShrinkIsUndo(u);
      SplitFirst(y, N());
      OnlyFirstPad(u, |red| - N());
    }

    // So the rows below the identity block are zero throughout the left block.
    lemma LowerLeftIsZero(z: Bits)
      requires Passed() && |z| == nl
      ensures OnlyFirst(MatVec(red, z + Zero(nr)), N())
    {
      hide *;
      PassedShape();
      StartOnlyFirst(z);
      PerformKeepsFirst(MatVec(Start(), z + Zero(nr)));
      PerformCommutes(ops, Start(), z + Zero(nr));
    }

    // ---------- reading off the answer ----------

    ghost function Answer(c: nat): (x: Bits)
      requires Passed() && c < nr
      ensures |x| == nl
    {
      ReadOff(red, nl, nr, N(), c)
    }

    lemma AnswerOnlyFirst(c: nat)
      requires Passed() && c < nr
      ensures OnlyFirst(Answer(c) + Zero(nr), N())
      ensures forall i :: 0 <= i < N() ==> (Answer(c) + Zero(nr))[i] == red[i][nl + c]
    {
    }

    // Adding column c of the right block to what a left part gives.
    lemma RightUnitValue(z: Bits, c: nat)
      requires Valid() && c < nr && |z| == nl
      ensures forall i :: 0 <= i < |red| ==>
                MatVec(red, z + Unit(nr, c))[i] == (MatVec(red, z + Zero(nr))[i] != red[i][nl + c])
    {
      hide Dot, ZeroColumns, ZeroColumn, Padded, Combined, Onto, PerformRows;
      var a, e := z + Zero(nr), Zero(nl) + Unit(nr, c);
      assert Xor(a, e) == z + Unit(nr, c);
      assert e == Unit(nl + nr, nl + c);
      MatVecXor(red, a, e);
      MatVecUnit(red, nl + nr, nl + c);
    }

    lemma AnswerValue(c: nat)
      requires Passed() && c < nr
      ensures forall i :: 0 <= i < |red| ==>
                MatVec(red, Answer(c) + Unit(nr, c))[i] == (N() <= i && red[i][nl + c])
    {
      hide Dot, ZeroColumns, ZeroColumn, Padded, Combined, Onto, ReadOff, PerformRows, MatVec;
      RightUnitValue(Answer(c), c);
      AnswerOnlyFirst(c);
      IdentityValue(red, nl + nr, rank, N(), Answer(c) + Zero(nr));
    }

    // If some left part cancels column c, no row below the identity block sees it.
    lemma CancelledColumn(c: nat, z: Bits)
      requires Passed() && c < nr && |z| == nl
      requires MatVec(Start(), z + Unit(nr, c)) == Zero(|red|)
      ensures forall i :: N() <= i < |red| ==> !red[i][nl + c]
    {
      hide Dot, ZeroColumns, ZeroColumn, Reduced, Combined, Padded, MatVec;
      SameKernel(ops, Start(), z + Unit(nr, c));
      RightUnitValue(z, c);
      LowerLeftIsZero(z);
      forall i | N() <= i < |red|
        ensures !red[i][nl + c]
      {
        assert MatVec(red, z + Unit(nr, c))[i] == Zero(|red|)[i];
      }
    }

    // The remaining columns are zero in `self`, and their padding row makes them pivots.
    lemma UncancelledColumn(c: nat, s: nat)
      requires Passed() && c < nr
      requires N() <= s < |Padded(self, nr)| && Padded(self, nr)[s][c]
      ensures ZeroColumn(self, nr, c) && Answer(c) == Zero(nl)
    {
      hide Dot, ZeroColumns, ZeroColumn, PerformRows, Lead, Combined, Reduced;
      LowPaddingRow(Padded(outer, nl), nl, self, nr, s, c);
      UnitRowMakesPivot(red, Start(), nl + nr, ops, rank, nl + c, s);
      IdentityLeads();
      PivotReadOff(red, nl, nr, rank, N(), c);
    }

    lemma AnswerInKernel(c: nat)
      requires Passed() && c < nr
      requires forall i :: N() <= i < |red| ==> !red[i][nl + c]
      ensures MatVec(Start(), Answer(c) + Unit(nr, c)) == Zero(|red|)
    {
      hide Dot, ZeroColumns, ZeroColumn, ReadOff, PerformRows, Combined, Padded;
      AnswerValue(c);
      var v := Answer(c) + Unit(nr, c);
      AllZero(MatVec(red, v));
      SameKernel(ops, Start(), v);
    }

    lemma KernelAnswer(c: nat)
      requires Passed() && c < nr
      requires forall i :: N() <= i < |red| ==> !red[i][nl + c]
      ensures MatVec(outer, Answer(c)) == Column(self, nr, c)
    {
      AnswerInKernel(c);
      var a := Answer(c);
      CombinedValue(Padded(outer, nl), nl, Padded(self, nr), nr, a, Unit(nr, c));
      forall r | 0 <= r < |outer|
        ensures MatVec(outer, a)[r] == self[r][c]
      {
        DotUnit(self[r], c);
        ZeroValue(Start(), a + Unit(nr, c), r);
      }
    }

    /** Whenever the identity check passes, every column read off is a preimage under `outer`
        of the corresponding column of `self`. */
    lemma AnswerIsPreimage(c: nat)
      requires Passed() && c < nr
      ensures MatVec(outer, Answer(c)) == Column(self, nr, c)
    {
      if OnlyFirst(Column(Padded(self, nr), nr, c), N()) {
        PaddedOnto(outer, nl);
        var z := CancelColumn(Padded(outer, nl), nl, Padded(self, nr), nr, c);
        CancelledColumn(c, z);
        KernelAnswer(c);
      } else {
        var s :| N() <= s < |Padded(self, nr)| && Padded(self, nr)[s][c];
        UncancelledColumn(c, s);
        MatVecZero(outer, nl);
      }
    }

    // ---------- which preimage it is ----------

    lemma KernelAtZero(c: nat, k: nat)
      requires Passed() && c < nr && k < |ZeroColumns(outer, nl, nl)|
      requires forall i :: N() <= i < |red| ==> !red[i][nl + c]
      ensures Answer(c)[ZeroColumns(outer, nl, nl)[k]] <==> k < |ZeroColumns(self, nr, nr)| && ZeroColumns(self, nr, nr)[k] == c
    {
      PassedShape();
      AnswerInKernel(c);
      PaddingMeets(outer, nl, self, nr, Answer(c), c, k);
    }

    /** The answer has a 1 at the k-th zero column of `outer` exactly if its column is the k-th zero
        column of `self`. */
    lemma AnswerAtZero(c: nat, k: nat)
      requires Passed() && c < nr && k < |ZeroColumns(outer, nl, nl)|
      ensures Answer(c)[ZeroColumns(outer, nl, nl)[k]] <==> k < |ZeroColumns(self, nr, nr)| && ZeroColumns(self, nr, nr)[k] == c
    {
      if OnlyFirst(Column(Padded(self, nr), nr, c), N()) {
        PaddedOnto(outer, nl);
        var z := CancelColumn(Padded(outer, nl), nl, Padded(self, nr), nr, c);
        CancelledColumn(c, z);
        KernelAtZero(c, k);
      } else {
        var s :| N() <= s < |Padded(self, nr)| && Padded(self, nr)[s][c];
        UncancelledColumn(c, s);
        LaterZeroColumn(outer, nl, self, nr, c, s);
      }
    }

    // Nothing is read off below the identity block.
    lemma AnswerEnds(c: nat, i: nat)
      requires Passed() && c < nr && N() <= i < nl
      ensures !Answer(c)[i]
    {
    }

    // ---------- when the identity check passes ----------

    ghost predicate LeadingKernel(x: Bits)
      requires Shaped()
    {
      InLeadingKernel(outer, nl, x)
    }

    // The first N() columns of the padded outer matrix are linearly independent.
    ghost predicate LeadingIndependent()
      requires Shaped()
    {
      LeadingColumnsIndependent(outer, nl)
    }

    // A leading column without a pivot depends on the columns before it.
    lemma FreeColumnInKernel(p: nat) returns (z: Bits)
      requires Valid() && N() <= nl && p < N() && !IsPivot(red, rank, p)
      ensures |z| == nl && LeadingKernel(z) && z[p]
    {
      hide Dot, ZeroColumns, ZeroColumn, Combined, Padded, PerformRows;
      var x := FreeColumnKernel(red, Start(), nl + nr, ops, rank, p);
      z := x[..nl];
      assert x == z + Zero(nr);
      LeftValue(z);
      var value := MatVec(Padded(outer, nl), z);
      assert value == (value + Zero(|Start()| - N()))[..N()];
    }

    lemma LeadingColumnIsPivot(p: nat)
      requires Valid() && N() <= nl && LeadingIndependent() && p < N()
      ensures IsPivot(red, rank, p)
    {
      if !IsPivot(red, rank, p) {
        var z := FreeColumnInKernel(p);
      }
    }

    lemma IndependentPasses()
      requires Valid() && LeadingIndependent()
      ensures Passed()
    {
      OuterIsWide();
      forall p | 0 <= p < N()
        ensures IsPivot(red, rank, p)
      {
        LeadingColumnIsPivot(p);
      }
      PivotsGiveIdentity(red, nl + nr, rank, N());
    }

    lemma PassedIsIndependent()
      requires Passed()
      ensures LeadingIndependent()
    {
      forall x: Bits | InLeadingKernel(outer, nl, x)
        ensures x == Zero(nl)
      {
        PassedKernel(x);
      }
    }

    lemma PassedKernel(x: Bits)
      requires Passed() && LeadingKernel(x)
      ensures x == Zero(nl)
    {
      hide *;
      PassedShape();
      LeadingKernelShape(x);
      var v := x + Zero(nr);
      LeftValue(x);
      ZeroAppend(N(), |Start()| - N());
      SameKernel(ops, Start(), v);
      OnlyFirstAppend(x, nr, N());
      IdentityKernel(red, nl + nr, rank, N(), v);
      AppendIsZero(x, nr);
    }

    lemma LeadingKernelShape(x: Bits)
      requires Passed() && LeadingKernel(x)
      ensures |x| == nl && OnlyFirst(x, N()) && IsMatrix(Padded(outer, nl), nl)
      ensures MatVec(Padded(outer, nl), x) == Zero(N())
    {
    }

    /** The fatal error "not the identity" is unreachable exactly when the first N() columns of
        the padded outer matrix are linearly independent. */
    lemma PassedIffIndependent()
      requires Valid()
      ensures N() <= nl
      ensures LeftIsIdentity(red, nl + nr, N()) <==> LeadingIndependent()
    {
      OuterIsWide();
      if LeadingIndependent() {
        IndependentPasses();
      }
      if LeftIsIdentity(red, nl + nr, N()) {
        PassedIsIndependent();
      }
    }
  }
}
