/** Gaussian elimination over the two-element field: third_party/f2reduce.

Matrices of at most 64 rows and 64 columns take the `inplace_rref_small` path, the only one
that layouts reach.  The source compares rows by `(w & -w) - 1`, a word of ones below the
lowest set bit of `w` (all ones if `w` is zero); those words are ordered as `Lead` orders
the rows, so the model compares `Lead`. */
module Rref {
  import opened F2Matrix

  // Index of the lowest set bit; the width if there is none.
  function Lead(a: Bits): (k: nat)
    ensures k <= |a|
    ensures k < |a| ==> a[k]
    ensures forall i :: 0 <= i < k ==> !a[i]
  {
    if |a| == 0 then 0 else if a[0] then 0 else 1 + Lead(a[1..])
  }

  /** Rows `[0, rank)` have strictly increasing leading columns, each leading column has a
      single 1, and the remaining rows are zero. */
  ghost predicate Reduced(m: Matrix, cols: nat, rank: nat) {
    && IsMatrix(m, cols)
    && rank <= |m|
    && LeadsIncrease(m, cols, rank)
    && (forall i :: rank <= i < |m| ==> m[i] == Zero(cols))
  }

  ghost predicate LeadsIncrease(m: Matrix, cols: nat, rank: nat)
    requires rank <= |m| && IsMatrix(m, cols)
  {
    && (forall i :: 0 <= i < rank ==> Lead(m[i]) < cols)
    && (forall i, j :: 0 <= i < j < rank ==> Lead(m[i]) < Lead(m[j]))
    && (forall i, s :: 0 <= i < rank && 0 <= s < |m| && s != i ==> !m[s][Lead(m[i])])
  }

  // The state between two pivots: `r` rows are done, the others start at column `next` or later.
  ghost predicate Partial(m: Matrix, cols: nat, r: nat, next: nat) {
    && IsMatrix(m, cols)
    && r <= |m|
    && LeadsIncrease(m, cols, r)
    && (forall i :: 0 <= i < r ==> Lead(m[i]) < next)
    && (forall t :: r <= t < |m| ==> next <= Lead(m[t]))
  }

  lemma LeadIs(a: Bits, k: nat)
    requires k < |a| && a[k] && forall i :: 0 <= i < k ==> !a[i]
    ensures Lead(a) == k
  {
  }

  lemma LeadAtLeast(a: Bits, k: nat)
    requires k <= |a| && forall i :: 0 <= i < k ==> !a[i]
    ensures k <= Lead(a)
  {
  }

  lemma NoLeadIsZero(a: Bits)
    requires Lead(a) == |a|
    ensures a == Zero(|a|)
  {
  }

  lemma SwapKeepsPartial(m: Matrix, cols: nat, r: nat, next: nat, i: nat, j: nat)
    requires Partial(m, cols, r, next) && r <= i < |m| && r <= j < |m|
    ensures Partial(m[i := m[j]][j := m[i]], cols, r, next)
  {
    var n := m[i := m[j]][j := m[i]];
    assert forall k :: 0 <= k < r ==> n[k] == m[k];
  }

  /** While column `b` is being cleared with pivot row `r`: rows before `s` are done. */
  ghost predicate Clearing(m: Matrix, cols: nat, r: nat, b: nat, s: nat) {
    && IsMatrix(m, cols)
    && r < |m| && b < cols && s <= |m|
    && Lead(m[r]) == b
    && LeadsIncrease(m, cols, r)
    && (forall i :: 0 <= i < r ==> Lead(m[i]) < b)
    && (forall t :: r <= t < |m| ==> b <= Lead(m[t]))
    && (forall t :: 0 <= t < s && t != r ==> !m[t][b])
  }

  lemma ClearingStep(m: Matrix, cols: nat, r: nat, b: nat, s: nat)
    requires Clearing(m, cols, r, b, s) && s < |m| && s != r && m[s][b]
    ensures Clearing(m[s := Xor(m[s], m[r])], cols, r, b, s + 1)
  {
    var row := Xor(m[s], m[r]);
    var n := m[s := row];
    if s < r {
      LeadIs(row, Lead(m[s]));
    } else {
      LeadAtLeast(row, b);
    }
    assert forall i :: 0 <= i < r ==> Lead(n[i]) == Lead(m[i]);
    forall i, t | 0 <= i < r && 0 <= t < |n| && t != i
      ensures !n[t][Lead(n[i])]
    {
      assert !m[r][Lead(m[i])];
    }
  }

  lemma ClearingDone(m: Matrix, cols: nat, r: nat, b: nat)
    requires Clearing(m, cols, r, b, |m|)
    ensures Partial(m, cols, r + 1, b + 1)
  {
    forall t | r + 1 <= t < |m|
      ensures b + 1 <= Lead(m[t])
    {
      assert !m[t][b];
      LeadAtLeast(m[t], b + 1);
    }
    forall i, s | 0 <= i < r + 1 && 0 <= s < |m| && s != i
      ensures !m[s][Lead(m[i])]
    {
    }
  }

  lemma PartialDone(m: Matrix, cols: nat, r: nat, next: nat)
    requires Partial(m, cols, r, next)
    requires forall t :: r <= t < |m| ==> Lead(m[t]) == cols
    ensures Reduced(m, cols, r)
  {
    forall t | r <= t < |m|
      ensures m[t] == Zero(cols)
    {
      NoLeadIsZero(m[t]);
    }
  }

  lemma StartClearing(m: Matrix, cols: nat, r: nat, next: nat)
    requires Partial(m, cols, r, next) && r < |m|
    requires Lead(m[r]) < cols && forall t :: r <= t < |m| ==> Lead(m[r]) <= Lead(m[t])
    ensures Clearing(m, cols, r, Lead(m[r]), 0)
  {
  }

  // `m` is what the row operations `ops` make of `start`.
  ghost predicate Tracks(m: Matrix, start: Matrix, cols: nat, ops: seq<RowOp>) {
    IsMatrix(start, cols) && AllApply(ops, |start|) && m == PerformRows(ops, start, cols)
  }

  lemma TracksStep(m: Matrix, start: Matrix, cols: nat, ops: seq<RowOp>, op: RowOp)
    requires Tracks(m, start, cols, ops) && Applies(op, |start|)
    ensures Tracks(ActRows(op, m), start, cols, ops + [op])
  {
    PerformRowsStep(ops, op, start, cols);
  }

  lemma NothingDone(m: Matrix, cols: nat)
    requires IsMatrix(m, cols)
    ensures Tracks(m, m, cols, []) && Partial(m, cols, 0, 0)
  {
  }

  // Moves a row with the lowest leading column among rows `r..` into row `r`.
  method ChoosePivot(m: array<Bits>, cols: nat, r: nat, next: nat, ghost start: Matrix, ghost before: seq<RowOp>)
    returns (b: nat, ghost ops: seq<RowOp>)
    requires r < m.Length && Partial(m[..], cols, r, next)
    requires Tracks(m[..], start, cols, before)
    modifies m
    ensures Tracks(m[..], start, cols, ops)
    ensures Partial(m[..], cols, r, next)
    ensures b == Lead(m[r])
    ensures forall t :: r <= t < m.Length ==> b <= Lead(m[t])
  {
    hide Lead, LeadsIncrease, PerformRows;
    ops := before;
    b := Lead(m[r]);
    for s := r + 1 to m.Length
      invariant Tracks(m[..], start, cols, ops)
      invariant Partial(m[..], cols, r, next)
      invariant b == Lead(m[r])
      invariant forall t :: r <= t < s ==> b <= Lead(m[t])
    {
      var thisRow := m[s];
      var a := Lead(thisRow);
      if a < b {
        b := a;
        ghost var was := m[..];
        SwapKeepsPartial(was, cols, r, next, s, r);
        TracksStep(was, start, cols, ops, Swap(s, r));
        ops := ops + [Swap(s, r)];
        m[s] := m[r];
        m[r] := thisRow;
        assert m[..] == was[s := was[r]][r := was[s]];
      }
      if b == next {
        // no row can start earlier
        break;
      }
    }
  }

  // Adds the pivot row to every other row that has a 1 in the pivot column.
  method ClearColumn(m: array<Bits>, cols: nat, r: nat, b: nat, ghost start: Matrix, ghost before: seq<RowOp>)
    returns (ghost ops: seq<RowOp>)
    requires r < m.Length && b < cols && Clearing(m[..], cols, r, b, 0)
    requires Tracks(m[..], start, cols, before)
    modifies m
    ensures Tracks(m[..], start, cols, ops)
    ensures Partial(m[..], cols, r + 1, b + 1)
  {
    ops := before;
    var pivot := m[r];
    for s := 0 to m.Length
      invariant Tracks(m[..], start, cols, ops)
      invariant m[r] == pivot && Clearing(m[..], cols, r, b, s)
    {
      if s == r { continue; }
      if m[s][b] {
        ghost var was := m[..];
        ClearingStep(was, cols, r, b, s);
        TracksStep(was, start, cols, ops, Add(r, s));
        ops := ops + [Add(r, s)];
        m[s] := Xor(m[s], pivot);
        assert m[..] == was[s := Xor(was[s], was[r])];
      }
    }
    ClearingDone(m[..], cols, r, b);
  }

  /** `inplace_rref_small`: the matrix ends in reduced form, reached from the original by
      elementary row operations only. */
  method InplaceRrefSmall(m: array<Bits>, cols: nat) returns (ghost ops: seq<RowOp>, ghost rank: nat)
    requires IsMatrix(m[..], cols)
    modifies m
    ensures AllApply(ops, m.Length)
    ensures m[..] == PerformRows(ops, old(m[..]), cols)
    ensures Reduced(m[..], cols, rank)
  {
    hide Lead, LeadsIncrease, Clearing, ActRows, PerformRows;
    ghost var start := m[..];
    ops := [];
    NothingDone(start, cols);
    var next: nat := 0;
    for r := 0 to m.Length
      invariant Tracks(m[..], start, cols, ops)
      invariant Partial(m[..], cols, r, next)
    {
      var b: nat;
      b, ops := ChoosePivot(m, cols, r, next, start, ops);
      if b == cols {
        PartialDone(m[..], cols, r, next);
        return ops, r;
      }
      StartClearing(m[..], cols, r, next);
      ops := ClearColumn(m, cols, r, b, start, ops);
      next := b + 1;
      if b == cols - 1 {
        PartialDone(m[..], cols, r + 1, next);
        return ops, r + 1;
      }
    }
    rank := m.Length;
  }

  /** `inplace_rref_strided` for layouts: a matrix with at most one row is left alone. */
  method InplaceRref(m: array<Bits>, cols: nat) returns (ghost ops: seq<RowOp>, ghost rank: nat)
    requires IsMatrix(m[..], cols)
    modifies m
    ensures AllApply(ops, m.Length)
    ensures m[..] == PerformRows(ops, old(m[..]), cols)
    ensures Reduced(m[..], cols, rank)
  {
    if m.Length <= 1 {
      ops := [];
      rank := if m.Length == 1 && Lead(m[0]) < cols then 1 else 0;
      if m.Length == 1 && rank == 0 {
        NoLeadIsZero(m[0]);
      }
      return;
    }
    ops, rank := InplaceRrefSmall(m, cols);
  }
}
