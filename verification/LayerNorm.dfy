/** The layer norm backward pass as a whole (python/tutorials/05-layer-norm.py:128-215, 256-287):
the locked partial sums, and the second kernel that adds the groups up. */
module LayerNorm {
  import opened Arith
  import opened LayerNormLock
  import Gradient = LayerNormGradient
  import opened LayerNormWeights

  // ---------- progress ----------

  // Steps program r has left.
  ghost function Left(cfg: Config, p: Prog): nat
    requires |p.acc| == cfg.w
  {
    match p.pc
    case Trying => 2 * cfg.w + 6
    case Testing => 2 * cfg.w + 5
    case Marking => 2 * cfg.w + 4
    case Loading(done) => cfg.w - Counted(done, cfg.w) + cfg.w + 3
    case Storing(done) => cfg.w - Counted(done, cfg.w) + 2
    case Releasing => 1
    case Finished => 0
  }

  // How many of the first w columns are in `done`.
  ghost function Counted(done: set<nat>, w: nat): (k: nat)
    ensures k <= w
  {
    if w == 0 then 0 else Counted(done, w - 1) + if w - 1 in done then 1 else 0
  }

  lemma {:induction false} CountedAdd(done: set<nat>, c: nat, w: nat)
    requires c !in done
    ensures Counted(done + {c}, w) == Counted(done, w) + if c < w then 1 else 0
  {
    if w > 0 {
      CountedAdd(done, c, w - 1);
    }
  }

  ghost function LeftUpTo(cfg: Config, s: State, n: nat): nat
    requires Shaped(cfg, s) && n <= cfg.m
  {
    if n == 0 then 0 else LeftUpTo(cfg, s, n - 1) + Left(cfg, s.progs[n - 1])
  }

  lemma {:induction false} LeftDiffers(cfg: Config, s: State, n: State, r: nat, k: nat)
    requires SameButOne(cfg, s, n, r) && k <= cfg.m
    ensures LeftUpTo(cfg, n, k) == LeftUpTo(cfg, s, k) + if r < k then Left(cfg, n.progs[r]) - Left(cfg, s.progs[r]) else 0
  {
    hide Left;
    if k > 0 {
      LeftDiffers(cfg, s, n, r, k - 1);
    }
  }

  /** A step that is not a failed attempt brings the end nearer. */
  lemma StepsRunOut(cfg: Config, s: State, r: nat, c: nat)
    requires Shaped(cfg, s) && r < cfg.m
    ensures Step(cfg, s, r, c) == s || LeftUpTo(cfg, Step(cfg, s, r, c), cfg.m) < LeftUpTo(cfg, s, cfg.m)
  {
    var n, p := Step(cfg, s, r, c), s.progs[r];
    StepIsLocal(cfg, s, r, c);
    LeftDiffers(cfg, s, n, r, cfg.m);
    if (p.pc.Loading? || p.pc.Storing?) && c !in p.pc.done {
      CountedAdd(p.pc.done, c, cfg.w);
    }
  }

  ghost predicate AllFinished(s: State) {
    forall r :: 0 <= r < |s.progs| ==> s.progs[r].pc.Finished?
  }

  // Program r, which holds the lock, can move.
  lemma InsiderMoves(cfg: Config, s: State, r: nat) returns (c: nat)
    requires Invariant(cfg, s) && r < cfg.m && s.progs[r].Inside()
    ensures Step(cfg, s, r, c) != s
  {
    hide Invariant;
    InvariantShaped(cfg, s);
    c := 0;
    var p := s.progs[r];
    if (p.pc.Loading? || p.pc.Storing?) && !AllColumns(p.pc.done, cfg.w) {
      c :| 0 <= c < cfg.w && c !in p.pc.done;
    }
    assert Step(cfg, s, r, c).progs[r].pc != p.pc;
  }

  /** No deadlock: until all programs have finished, some program has a step to make. */
  lemma SomeoneMoves(cfg: Config, s: State) returns (r: nat, c: nat)
    requires Invariant(cfg, s) && !AllFinished(s)
    ensures r < cfg.m && Step(cfg, s, r, c) != s
  {
    hide ProgOk, CellOk, CountOk, Exclusive;
    r :| 0 <= r < |s.progs| && !s.progs[r].pc.Finished?;
    c := 0;
    if s.progs[r].Inside() {
      c := InsiderMoves(cfg, s, r);
    } else {
      var k := cfg.Group(r);
      assert LockOk(cfg, s, k);
      if s.locks[k] != 0 {
        r :| 0 <= r < cfg.m && s.progs[r].Inside() && cfg.Group(r) == k;
        c := InsiderMoves(cfg, s, r);
      } else {
        assert Step(cfg, s, r, c).progs[r].pc.Testing?;
      }
    }
  }

  // ---------- what is in the buffers at the end ----------

  // Column c summed over the rows below n that belong to group k.
  ghost function GroupSum(cfg: Config, k: nat, c: nat, n: nat): real
    requires cfg.Valid() && c < cfg.w && n <= cfg.m
  {
    if n == 0 then 0.0 else GroupSum(cfg, k, c, n - 1) + if (n - 1) % cfg.g == k then cfg.partial[n - 1][c] else 0.0
  }

  ghost function RowSum(cfg: Config, c: nat, n: nat): real
    requires cfg.Valid() && c < cfg.w && n <= cfg.m
  {
    if n == 0 then 0.0 else RowSum(cfg, c, n - 1) + cfg.partial[n - 1][c]
  }

  lemma {:induction false} FinishedSum(cfg: Config, s: State, k: nat, c: nat, n: nat)
    requires Shaped(cfg, s) && AllFinished(s) && c < cfg.w && n <= cfg.m
    ensures SumOf(cfg, StoredRows(cfg, s, k), c, n) == GroupSum(cfg, k, c, n)
  {
    if n > 0 {
      FinishedSum(cfg, s, k, c, n - 1);
      assert n - 1 in StoredRows(cfg, s, k) <==> cfg.Group(n - 1) == k;
    }
  }

  /** When all programs have finished, each buffer that is used holds the sum over the rows of
      its group, whatever it held at the start. */
  lemma FinishedBuffer(cfg: Config, s: State, k: nat, c: nat)
    requires Invariant(cfg, s) && AllFinished(s) && k < Min(cfg.g, cfg.m) && c < cfg.w
    ensures s.buf[k][c] == GroupSum(cfg, k, c, cfg.m)
  {
    hide ProgOk, LockOk, CountOk, Exclusive, Total;
    assert CellOk(cfg, s, k, c);
    assert cfg.Group(k) == k && k in StoredRows(cfg, s, k);
    FinishedSum(cfg, s, k, c, cfg.m);
    TotalIsSum(cfg, s, k, c);
  }

  lemma TotalIsSum(cfg: Config, s: State, k: nat, c: nat)
    requires cfg.Valid() && c < cfg.w
    ensures Total(cfg, s, k, c) == SumOf(cfg, StoredRows(cfg, s, k), c, cfg.m)
  {
  }

  // The group sums below k, of the first n rows.
  ghost function GroupSums(cfg: Config, c: nat, n: nat, k: nat): real
    requires cfg.Valid() && c < cfg.w && n <= cfg.m
  {
    if k == 0 then 0.0 else GroupSums(cfg, c, n, k - 1) + GroupSum(cfg, k - 1, c, n)
  }

  lemma {:induction false} GroupSumsStep(cfg: Config, c: nat, n: nat, k: nat)
    requires cfg.Valid() && c < cfg.w && 0 < n <= cfg.m
    ensures GroupSums(cfg, c, n, k) == GroupSums(cfg, c, n - 1, k) + if cfg.Group(n - 1) < k then cfg.partial[n - 1][c] else 0.0
  {
    if k > 0 {
      GroupSumsStep(cfg, c, n, k - 1);
    }
  }

  lemma {:induction false} GroupSumsOfNone(cfg: Config, c: nat, k: nat)
    requires cfg.Valid() && c < cfg.w
    ensures GroupSums(cfg, c, 0, k) == 0.0
  {
    if k > 0 {
      GroupSumsOfNone(cfg, c, k - 1);
    }
  }

  /** The first min(groups, rows) buffers together account for every row. */
  lemma {:induction false} GroupsCoverRows(cfg: Config, c: nat, n: nat)
    requires cfg.Valid() && c < cfg.w && n <= cfg.m
    ensures GroupSums(cfg, c, n, Min(cfg.g, cfg.m)) == RowSum(cfg, c, n)
  {
    var k := Min(cfg.g, cfg.m);
    if n == 0 {
      GroupSumsOfNone(cfg, c, k);
    } else {
      GroupsCoverRows(cfg, c, n - 1);
      GroupSumsStep(cfg, c, n, k);
      GroupBelow(n - 1, cfg.g);
    }
  }

  lemma GroupBelow(r: nat, g: nat)
    requires g > 0
    ensures r % g <= r && r % g < g
  {
  }

  // ---------- the second kernel ----------

  // Column c of the first n rows.
  ghost function ColumnSum(buf: seq<seq<real>>, c: nat, n: nat): real
    requires n <= |buf| && forall k :: 0 <= k < n ==> c < |buf[k]|
  {
    if n == 0 then 0.0 else ColumnSum(buf, c, n - 1) + buf[n - 1][c]
  }

  // tl.sum(t, axis=0) at column j, over the first n rows.
  function SumAxis0(t: seq<seq<real>>, j: nat, n: nat): real
    requires n <= |t| && forall k :: 0 <= k < n ==> j < |t[k]|
  {
    if n == 0 then 0.0 else SumAxis0(t, j, n - 1) + t[n - 1][j]
  }

  // tl.load(..., mask=(row < m) & (col < n), other=0.)
  function MaskedLoad(buf: seq<seq<real>>, row: nat, col: nat, shift: nat, m: nat, n: nat): real
    requires m <= |buf| && forall k :: 0 <= k < m ==> shift + n <= |buf[k]|
  {
    if row < m && col < n then buf[row][shift + col] else 0.0
  }

  ghost predicate IsTile(t: seq<seq<real>>, bm: nat, bn: nat) {
    |t| == bm && forall k :: 0 <= k < bm ==> |t[k]| == bn
  }

  ghost predicate Accumulates(t: seq<seq<real>>, was: seq<seq<real>>, buf: seq<seq<real>>, i: nat, c0: nat, shift: nat, m: nat, n: nat, bm: nat, bn: nat)
    requires m <= |buf| && forall k :: 0 <= k < m ==> shift + n <= |buf[k]|
  {
    && IsTile(t, bm, bn) && IsTile(was, bm, bn)
    && forall k, j :: 0 <= k < bm && 0 <= j < bn ==> t[k][j] == was[k][j] + MaskedLoad(buf, i + k, c0 + j, shift, m, n)
  }

  // One turn adds the next rows, as far as they exist.
  lemma {:induction false} TurnAdds(t: seq<seq<real>>, was: seq<seq<real>>, buf: seq<seq<real>>, i: nat, c0: nat, shift: nat, m: nat, n: nat, bm: nat, bn: nat, j: nat, k: nat)
    requires m <= |buf| && forall k :: 0 <= k < m ==> shift + n <= |buf[k]|
    requires Accumulates(t, was, buf, i, c0, shift, m, n, bm, bn) && j < bn && k <= bm && c0 + j < n
    ensures SumAxis0(t, j, k) == SumAxis0(was, j, k) + ColumnSum(buf, shift + c0 + j, Min(i + k, m)) - ColumnSum(buf, shift + c0 + j, Min(i, m))
  {
    if k > 0 {
      TurnAdds(t, was, buf, i, c0, shift, m, n, bm, bn, j, k - 1);
    }
  }

  lemma {:induction false} ZerosSum(t: seq<seq<real>>, j: nat, n: nat)
    requires n <= |t| && forall k :: 0 <= k < n ==> j < |t[k]| && t[k][j] == 0.0
    ensures SumAxis0(t, j, n) == 0.0
  {
    if n > 0 {
      ZerosSum(t, j, n - 1);
    }
  }

  /** `_layer_norm_bwd_dwdb` for one buffer: program `pid` sums its columns over the first m rows;
      the buffer's columns start at `shift`. */
  method DwDb(buf: seq<seq<real>>, shift: nat, m: nat, n: nat, bm: nat, bn: nat, pid: nat, final: array<real>)
    requires bm > 0 && final.Length == n && m <= |buf| && forall k :: 0 <= k < m ==> shift + n <= |buf[k]|
    modifies final
    ensures forall c :: 0 <= c < n ==> final[c] == if pid * bn <= c < pid * bn + bn then ColumnSum(buf, shift + c, m) else old(final[c])
  {
    var c0 := pid * bn;
    var t := seq(bm, k => seq(bn, j => 0.0));
    forall j | 0 <= j < bn ensures SumAxis0(t, j, bm) == 0.0 {
      ZerosSum(t, j, bm);
    }
    var i := 0;
    while i < m
      invariant IsTile(t, bm, bn)
      invariant forall j :: 0 <= j < bn && c0 + j < n ==> SumAxis0(t, j, bm) == ColumnSum(buf, shift + c0 + j, Min(i, m))
      decreases m - i
    {
      ghost var was := t;
      t := seq(bm, k requires 0 <= k < bm => seq(bn, j requires 0 <= j < bn => t[k][j] + MaskedLoad(buf, i + k, c0 + j, shift, m, n)));
      forall j | 0 <= j < bn && c0 + j < n ensures SumAxis0(t, j, bm) == ColumnSum(buf, shift + c0 + j, Min(i + bm, m)) {
        TurnAdds(t, was, buf, i, c0, shift, m, n, bm, bn, j, bm);
      }
      i := i + bm;
    }
    forall c | 0 <= c < n && c0 <= c < c0 + bn {
      final[c] := SumAxis0(t, c - c0, bm);
    }
    forall c | 0 <= c < n && c0 <= c < c0 + bn ensures final[c] == ColumnSum(buf, shift + c, m) {
      assert shift + c0 + (c - c0) == shift + c;
    }
  }

  // Turns of a run in which something happened.
  ghost function Moves(run: seq<State>): nat {
    if |run| <= 1 then 0 else Moves(run[..|run| - 1]) + if run[|run| - 1] == run[|run| - 2] then 0 else 1
  }

  /** Failed attempts aside, every run is bounded: with SomeoneMoves, a run that keeps moving ends
      with all programs finished. */
  lemma {:induction false} RunsEnd(cfg: Config, run: seq<State>)
    requires IsRun(cfg, run)
    ensures Moves(run) + LeftUpTo(cfg, run[|run| - 1], cfg.m) <= LeftUpTo(cfg, run[0], cfg.m)
  {
    hide Step, Initial, LeftUpTo;
    if |run| > 1 {
      var front := run[..|run| - 1];
      RunsEnd(cfg, front);
      assert front[|front| - 1] == run[|run| - 2] && Next(cfg, run[|run| - 2], run[|run| - 1]);
      var r: nat, c: nat :| r < cfg.m && run[|run| - 1] == Step(cfg, run[|run| - 2], r, c);
      StepsRunOut(cfg, run[|run| - 2], r, c);
    }
  }

  // ---------- LayerNorm.backward ----------

  function GroupSize(n: nat): (g: nat)
    ensures g > 0
  {
    if n <= 1024 then 256 else if n <= 4096 then 128 else if n <= 8192 then 96 else 64
  }

  function ConfigOf(a: Inputs): (cfg: Config)
    requires a.Valid()
    ensures cfg.Valid() && cfg.m == a.m && cfg.w == 2 * a.n
  {
    Config(a.m, GroupSize(a.n), 2 * a.n, seq(a.m, r requires 0 <= r < a.m => seq(2 * a.n, c requires 0 <= c < 2 * a.n => a.Partial(r, c))))
  }

  lemma {:induction false} RowSumIsGradient(a: Inputs, c: nat, k: nat)
    requires a.Valid() && c < a.n && k <= a.m
    ensures RowSum(ConfigOf(a), c, k) == a.WeightGradient(c, k)
    ensures RowSum(ConfigOf(a), a.n + c, k) == a.BiasGradient(c, k)
  {
    if k > 0 {
      RowSumIsGradient(a, c, k - 1);
    }
  }

  lemma {:induction false} ColumnIsGroupSums(cfg: Config, s: State, c: nat, k: nat)
    requires Invariant(cfg, s) && AllFinished(s) && k <= Min(cfg.g, cfg.m) && c < cfg.w
    ensures ColumnSum(s.buf, c, k) == GroupSums(cfg, c, cfg.m, k)
  {
    hide LockOk, CountOk, CellOk, ProgOk, Exclusive;
    if k > 0 {
      ColumnIsGroupSums(cfg, s, c, k - 1);
      FinishedBuffer(cfg, s, k - 1, c);
    }
  }

  // All programs of the second kernel.
  method LaunchDwDb(buf: seq<seq<real>>, shift: nat, m: nat, n: nat) returns (final: array<real>)
    requires m <= |buf| && forall k :: 0 <= k < m ==> shift + n <= |buf[k]|
    ensures fresh(final) && final.Length == n && forall c :: 0 <= c < n ==> final[c] == ColumnSum(buf, shift + c, m)
  {
    final := new real[n];
    CdivReaches(n, 128);
    for pid := 0 to Cdiv(n, 128)
      invariant forall c :: 0 <= c < n && c < pid * 128 ==> final[c] == ColumnSum(buf, shift + c, m)
    {
      DwDb(buf, shift, m, n, 32, 128, pid, final);
    }
  }

  // Every row's input gradient, which its program stores before it takes the lock.
  method RowGradients(a: Inputs, block: nat) returns (dx: seq<seq<real>>)
    requires a.Valid() && a.n <= block
    ensures AreGradients(a, dx)
  {
    hide Gradient.IsGradient, Gradient.IsInputGradient;
    dx := [];
    for r := 0 to a.m
      invariant |dx| == r && forall k :: 0 <= k < r ==> Gradient.IsGradient(a.x[k], a.mean[k], a.rstd[k], Gradient.Weighted(a.w, a.dy[k]), dx[k])
    {
      var row := Gradient.RowGradient(a.x[r], a.dy[r], a.w, a.mean[r], a.rstd[r], block);
      dx := dx + [row];
    }
    forall r | 0 <= r < a.m ensures Gradient.IsInputGradient(a.x[r], a.mean[r], a.rstd[r], a.w, a.dy[r], dx[r]) {
      Gradient.GradientOfLoss(a.x[r], a.mean[r], a.rstd[r], a.w, a.dy[r], dx[r]);
    }
  }

  ghost predicate AreGradients(a: Inputs, dx: seq<seq<real>>)
    requires a.Valid()
  {
    && |dx| == a.m
    && forall r :: 0 <= r < a.m ==>
         && Gradient.IsGradient(a.x[r], a.mean[r], a.rstd[r], Gradient.Weighted(a.w, a.dy[r]), dx[r])
         && Gradient.IsInputGradient(a.x[r], a.mean[r], a.rstd[r], a.w, a.dy[r], dx[r])
  }

  /** `LayerNorm.backward`: every row's input gradient; and whatever order the row programs ran in,
      once they have finished the second kernel delivers the weight and bias gradients summed over
      all rows.  `block` is the forward pass's block, which covers a row. */
  method Backward(a: Inputs, block: nat, ghost run: seq<State>, buf: seq<seq<real>>) returns (dx: seq<seq<real>>, dw: array<real>, db: array<real>)
    requires a.Valid() && a.n <= block && IsRun(ConfigOf(a), run) && AllFinished(run[|run| - 1]) && buf == run[|run| - 1].buf
    ensures AreGradients(a, dx)
    ensures dw.Length == a.n && forall c :: 0 <= c < a.n ==> dw[c] == a.WeightGradient(c, a.m)
    ensures db.Length == a.n && forall c :: 0 <= c < a.n ==> db[c] == a.BiasGradient(c, a.m)
    ensures AreWeightGradients(a, dw[..], db[..])
  {
    hide Invariant, ConfigOf, Next, Initial, AreGradients, AreWeightGradients;
    dx := RowGradients(a, block);
    ghost var cfg, s := ConfigOf(a), run[|run| - 1];
    ConfigSizes(a);
    RunKeepsInvariant(cfg, run);
    InvariantShaped(cfg, s);
    var m := Min(GroupSize(a.n), a.m);
    dw := LaunchDwDb(buf, 0, m, a.n);
    db := LaunchDwDb(buf, a.n, m, a.n);
    forall c | 0 <= c < a.n ensures dw[c] == a.WeightGradient(c, a.m) && db[c] == a.BiasGradient(c, a.m) {
      ColumnIsGroupSums(cfg, s, c, m);
      ColumnIsGroupSums(cfg, s, a.n + c, m);
      GroupsCoverRows(cfg, c, a.m);
      GroupsCoverRows(cfg, a.n + c, a.m);
      RowSumIsGradient(a, c, a.m);
    }
    SumsAreGradients(a, dw[..], db[..]);
  }

  lemma ConfigSizes(a: Inputs)
    requires a.Valid()
    ensures ConfigOf(a).g == GroupSize(a.n)
  {
  }
}
