/** The lock protocol of the layer norm backward pass: _layer_norm_bwd_dx_fused
(python/tutorials/05-layer-norm.py:128-187), one program per row, as a step system.

A step is one access to shared memory: one attempt to take the lock, one read or write of the
count, one column of a buffer loaded or stored, one release.  Columns of one load or store are
accessed in any order, and the steps of all programs interleave in any order. */
module LayerNormLock {

  // m rows, g groups, w columns; partial[r] is what row r adds to the sums.
  datatype Config = Config(m: nat, g: nat, w: nat, partial: seq<seq<real>>) {
    ghost predicate Valid() {
      g > 0 && |partial| == m && forall r :: 0 <= r < m ==> |partial[r]| == w
    }

    function Group(r: nat): (k: nat)
      requires g > 0
      ensures k < g
    {
      r % g
    }
  }

  datatype Pc = Trying | Testing | Marking | Loading(done: set<nat>) | Storing(done: set<nat>) | Releasing | Finished

  datatype Prog = Prog(pc: Pc, acc: seq<real>) {
    // Holds the lock.
    predicate Inside() {
      !pc.Trying? && !pc.Finished?
    }

    // Got past the count test, and past marking if the count was 0.
    predicate Past() {
      pc.Loading? || pc.Storing? || pc.Releasing? || pc.Finished?
    }

    // Its sums are in the buffer.
    predicate Stored() {
      pc.Releasing? || pc.Finished?
    }
  }

  // locks holds g locks and then g counts; buf holds one row of w sums per group.
  datatype State = State(locks: seq<int>, buf: seq<seq<real>>, progs: seq<Prog>)

  ghost predicate Shaped(cfg: Config, s: State) {
    && cfg.Valid() && |s.locks| == 2 * cfg.g && |s.buf| == cfg.g && |s.progs| == cfg.m
    && (forall k :: 0 <= k < cfg.g ==> |s.buf[k]| == cfg.w)
    && forall r :: 0 <= r < cfg.m ==> |s.progs[r].acc| == cfg.w
  }

  ghost function CountAt(cfg: Config, s: State, k: nat): int
    requires Shaped(cfg, s) && k < cfg.g
  {
    s.locks[cfg.g + k]
  }

  predicate AllColumns(done: set<nat>, w: nat) {
    forall c :: 0 <= c < w ==> c in done
  }

  function SetCell(buf: seq<seq<real>>, k: nat, c: nat, v: real): (b: seq<seq<real>>)
    requires k < |buf| && c < |buf[k]|
    ensures |b| == |buf| && forall j :: 0 <= j < |buf| ==> |b[j]| == |buf[j]|
    ensures forall j, d :: 0 <= j < |buf| && 0 <= d < |buf[j]| ==> b[j][d] == if j == k && d == c then v else buf[j][d]
  {
    buf[k := buf[k][c := v]]
  }

  function Moved(s: State, r: nat, pc: Pc): State
    requires r < |s.progs|
  {
    s.(progs := s.progs[r := s.progs[r].(pc := pc)])
  }

  /** One step of program r; c is the column, if it accesses one.  A program that finds the lock
      taken stays where it is. */
  function Step(cfg: Config, s: State, r: nat, c: nat): (n: State)
    requires Shaped(cfg, s) && r < cfg.m
    ensures Shaped(cfg, n)
  {
    var k, p := cfg.Group(r), s.progs[r];
    match p.pc
    case Trying =>
      if s.locks[k] == 0 then Moved(s.(locks := s.locks[k := 1]), r, Testing) else s
    case Testing =>
      Moved(s, r, if s.locks[cfg.g + k] == 0 then Marking else Loading({}))
    case Marking =>
      Moved(s.(locks := s.locks[cfg.g + k := 1]), r, Storing({}))
    case Loading(done) =>
      if AllColumns(done, cfg.w) then Moved(s, r, Storing({}))
      else if c >= cfg.w || c in done then s
      else s.(progs := s.progs[r := Prog(Loading(done + {c}), p.acc[c := p.acc[c] + s.buf[k][c]])])
    case Storing(done) =>
      if AllColumns(done, cfg.w) then Moved(s, r, Releasing)
      else if c >= cfg.w || c in done then s
      else Moved(s.(buf := SetCell(s.buf, k, c, p.acc[c])), r, Storing(done + {c}))
    case Releasing =>
      Moved(s.(locks := s.locks[k := 0]), r, Finished)
    case Finished => s
  }

  // LayerNorm.backward clears the locks and counts; the buffers may hold anything.
  ghost predicate Initial(cfg: Config, s: State) {
    && Shaped(cfg, s)
    && (forall i :: 0 <= i < |s.locks| ==> s.locks[i] == 0)
    && forall r :: 0 <= r < cfg.m ==> s.progs[r] == Prog(Trying, cfg.partial[r])
  }

  ghost predicate Next(cfg: Config, s: State, n: State)
    requires Shaped(cfg, s)
  {
    exists r: nat, c: nat :: r < cfg.m && n == Step(cfg, s, r, c)
  }

  ghost predicate IsRun(cfg: Config, run: seq<State>) {
    && |run| > 0 && Initial(cfg, run[0])
    && (forall i :: 0 <= i < |run| ==> Shaped(cfg, run[i]))
    && forall i :: 0 < i < |run| ==> Next(cfg, run[i - 1], run[i])
  }

  // ---------- sums ----------

  // Column c summed over the rows below n in `rows`.
  ghost function SumOf(cfg: Config, rows: set<nat>, c: nat, n: nat): real
    requires cfg.Valid() && c < cfg.w && n <= cfg.m
  {
    if n == 0 then 0.0 else SumOf(cfg, rows, c, n - 1) + if n - 1 in rows then cfg.partial[n - 1][c] else 0.0
  }

  lemma {:induction false} SumOfAdd(cfg: Config, rows: set<nat>, r: nat, c: nat, n: nat)
    requires cfg.Valid() && c < cfg.w && n <= cfg.m && r !in rows
    ensures SumOf(cfg, rows + {r}, c, n) == SumOf(cfg, rows, c, n) + if r < n then cfg.partial[r][c] else 0.0
  {
    if n > 0 {
      SumOfAdd(cfg, rows, r, c, n - 1);
    }
  }

  lemma {:induction false} SumOfNone(cfg: Config, c: nat, n: nat)
    requires cfg.Valid() && c < cfg.w && n <= cfg.m
    ensures SumOf(cfg, {}, c, n) == 0.0
  {
    if n > 0 {
      SumOfNone(cfg, c, n - 1);
    }
  }

  ghost function StoredRows(cfg: Config, s: State, k: nat): set<nat>
    requires cfg.g > 0
  {
    set r | 0 <= r < |s.progs| && s.progs[r].Stored() && cfg.Group(r) == k
  }

  // The sum of what the group's finished programs contributed.
  ghost function Total(cfg: Config, s: State, k: nat, c: nat): real
    requires cfg.Valid() && c < cfg.w
  {
    SumOf(cfg, StoredRows(cfg, s, k), c, cfg.m)
  }

  // ---------- the invariant ----------

  ghost predicate LockOk(cfg: Config, s: State, k: nat)
    requires Shaped(cfg, s) && k < cfg.g
  {
    && (s.locks[k] == 0 || s.locks[k] == 1)
    && (s.locks[k] == 0 <==> forall r :: 0 <= r < cfg.m && s.progs[r].Inside() ==> cfg.Group(r) != k)
  }

  // At most one program of a group holds the lock.
  ghost predicate Exclusive(cfg: Config, s: State)
    requires Shaped(cfg, s)
  {
    forall r, q :: 0 <= r < cfg.m && 0 <= q < cfg.m && s.progs[r].Inside() && s.progs[q].Inside() && cfg.Group(r) == cfg.Group(q) ==> r == q
  }

  // The count is 0 exactly until a program of the group gets past its test.
  ghost predicate CountOk(cfg: Config, s: State, k: nat)
    requires Shaped(cfg, s) && k < cfg.g
  {
    && (CountAt(cfg, s, k) == 0 || CountAt(cfg, s, k) == 1)
    && (CountAt(cfg, s, k) == 0 <==> forall r :: 0 <= r < cfg.m && s.progs[r].Past() ==> cfg.Group(r) != k)
  }

  ghost predicate InRange(done: set<nat>, w: nat) {
    forall c :: c in done ==> c < w
  }

  // What a program has accumulated so far.
  ghost predicate ProgOk(cfg: Config, s: State, r: nat)
    requires Shaped(cfg, s) && r < cfg.m
  {
    var p, k := s.progs[r], cfg.Group(r);
    match p.pc
    case Trying => p.acc == cfg.partial[r]
    case Testing => p.acc == cfg.partial[r]
    case Marking => p.acc == cfg.partial[r] && StoredRows(cfg, s, k) == {} && CountAt(cfg, s, k) == 0
    case Loading(done) =>
      && InRange(done, cfg.w) && StoredRows(cfg, s, k) != {}
      && forall c :: 0 <= c < cfg.w ==> p.acc[c] == if c in done then cfg.partial[r][c] + Total(cfg, s, k, c) else cfg.partial[r][c]
    case Storing(done) =>
      && InRange(done, cfg.w)
      && forall c :: 0 <= c < cfg.w ==> p.acc[c] == cfg.partial[r][c] + Total(cfg, s, k, c)
    case _ => true
  }

  ghost predicate Overwritten(s: State, r: nat, c: nat)
    requires r < |s.progs|
  {
    s.progs[r].pc.Storing? && c in s.progs[r].pc.done
  }

  // A cell holds the sum of what is finished, or what the storing program already put there.
  ghost predicate CellOk(cfg: Config, s: State, k: nat, c: nat)
    requires Shaped(cfg, s) && k < cfg.g && c < cfg.w
  {
    && (forall r :: 0 <= r < cfg.m && cfg.Group(r) == k && Overwritten(s, r, c) ==> s.buf[k][c] == s.progs[r].acc[c])
    && ((forall r :: 0 <= r < cfg.m && cfg.Group(r) == k ==> !Overwritten(s, r, c)) && StoredRows(cfg, s, k) != {}
        ==> s.buf[k][c] == Total(cfg, s, k, c))
  }

  ghost predicate Invariant(cfg: Config, s: State) {
    && Shaped(cfg, s) && Exclusive(cfg, s)
    && (forall k :: 0 <= k < cfg.g ==> LockOk(cfg, s, k) && CountOk(cfg, s, k))
    && (forall r :: 0 <= r < cfg.m ==> ProgOk(cfg, s, r))
    && forall k, c :: 0 <= k < cfg.g && 0 <= c < cfg.w ==> CellOk(cfg, s, k, c)
  }

  lemma InitialInvariant(cfg: Config, s: State)
    requires Initial(cfg, s)
    ensures Invariant(cfg, s)
  {
    forall k | 0 <= k < cfg.g ensures StoredRows(cfg, s, k) == {} && LockOk(cfg, s, k) && CountOk(cfg, s, k) {
    }
  }

  // ---------- what a step leaves alone ----------

  ghost predicate SameButOne(cfg: Config, s: State, n: State, r: nat) {
    && Shaped(cfg, s) && Shaped(cfg, n) && r < cfg.m
    && (forall q :: 0 <= q < cfg.m && q != r ==> n.progs[q] == s.progs[q])
    && (forall k :: 0 <= k < cfg.g && k != cfg.Group(r) ==> n.buf[k] == s.buf[k] && n.locks[k] == s.locks[k] && CountAt(cfg, n, k) == CountAt(cfg, s, k))
  }

  lemma StepIsLocal(cfg: Config, s: State, r: nat, c: nat)
    requires Shaped(cfg, s) && r < cfg.m
    ensures SameButOne(cfg, s, Step(cfg, s, r, c), r)
  {
  }

  lemma StoredElsewhere(cfg: Config, s: State, n: State, r: nat, k: nat)
    requires SameButOne(cfg, s, n, r) && (k != cfg.Group(r) || s.progs[r].Stored() == n.progs[r].Stored())
    ensures StoredRows(cfg, n, k) == StoredRows(cfg, s, k)
  {
    forall q | q in StoredRows(cfg, n, k) ensures q in StoredRows(cfg, s, k) {
      assert q != r ==> n.progs[q] == s.progs[q];
    }
    forall q | q in StoredRows(cfg, s, k) ensures q in StoredRows(cfg, n, k) {
      assert q != r ==> n.progs[q] == s.progs[q];
    }
  }

  lemma StoredHere(cfg: Config, s: State, n: State, r: nat)
    requires SameButOne(cfg, s, n, r) && !s.progs[r].Stored() && n.progs[r].Stored()
    ensures r !in StoredRows(cfg, s, cfg.Group(r)) && StoredRows(cfg, n, cfg.Group(r)) == StoredRows(cfg, s, cfg.Group(r)) + {r}
  {
    var k := cfg.Group(r);
    forall q | q in StoredRows(cfg, n, k) ensures q in StoredRows(cfg, s, k) + {r} {
      assert q != r ==> n.progs[q] == s.progs[q];
    }
    forall q | q in StoredRows(cfg, s, k) + {r} ensures q in StoredRows(cfg, n, k) {
      assert q != r ==> n.progs[q] == s.progs[q];
    }
  }

  // ---------- every step keeps the invariant ----------

  lemma StepKeepsExclusive(cfg: Config, s: State, r: nat, c: nat)
    requires Invariant(cfg, s) && r < cfg.m
    ensures Exclusive(cfg, Step(cfg, s, r, c))
  {
    hide CountOk, ProgOk, CellOk;
    var n := Step(cfg, s, r, c);
    StepIsLocal(cfg, s, r, c);
    assert LockOk(cfg, s, cfg.Group(r));
  }

  lemma StepKeepsLock(cfg: Config, s: State, r: nat, c: nat, k: nat)
    requires Invariant(cfg, s) && r < cfg.m && k < cfg.g
    ensures LockOk(cfg, Step(cfg, s, r, c), k)
  {
    hide CountOk, ProgOk, CellOk;
    StepIsLocal(cfg, s, r, c);
    assert LockOk(cfg, s, k);
  }

  lemma StepKeepsCount(cfg: Config, s: State, r: nat, c: nat, k: nat)
    requires Invariant(cfg, s) && r < cfg.m && k < cfg.g
    ensures CountOk(cfg, Step(cfg, s, r, c), k)
  {
    hide LockOk, ProgOk, CellOk, Exclusive;
    StepIsLocal(cfg, s, r, c);
    assert CountOk(cfg, s, k);
  }

  // Another program keeps what it knows.
  lemma OthersKeep(cfg: Config, s: State, r: nat, c: nat, q: nat)
    requires Invariant(cfg, s) && r < cfg.m && q < cfg.m && q != r
    ensures ProgOk(cfg, Step(cfg, s, r, c), q)
  {
    hide LockOk, CountOk, CellOk, StoredRows;
    var n, k := Step(cfg, s, r, c), cfg.Group(q);
    StepIsLocal(cfg, s, r, c);
    assert ProgOk(cfg, s, q);
    if k != cfg.Group(r) || s.progs[r].Stored() == n.progs[r].Stored() {
      StoredElsewhere(cfg, s, n, r, k);
    }
  }

  // Past the count test, some program of the group has finished.
  lemma CountMeansStored(cfg: Config, s: State, r: nat)
    requires Invariant(cfg, s) && r < cfg.m && s.progs[r].pc.Testing?
    ensures CountAt(cfg, s, cfg.Group(r)) == 0 <==> StoredRows(cfg, s, cfg.Group(r)) == {}
  {
    hide LockOk, ProgOk, CellOk;
    var k := cfg.Group(r);
    assert CountOk(cfg, s, k);
    if CountAt(cfg, s, k) != 0 {
      var q :| 0 <= q < cfg.m && s.progs[q].Past() && cfg.Group(q) == k;
      assert q in StoredRows(cfg, s, k);
    }
    if StoredRows(cfg, s, k) != {} {
      var q :| q in StoredRows(cfg, s, k);
      assert s.progs[q].Past() && cfg.Group(q) == k;
    }
  }

  // The program that moves accumulates what it should.
  lemma MoverKeeps(cfg: Config, s: State, r: nat, c: nat)
    requires Invariant(cfg, s) && r < cfg.m
    ensures ProgOk(cfg, Step(cfg, s, r, c), r)
  {
    hide LockOk, CountOk, CellOk, StoredRows, Exclusive;
    var n, k, p := Step(cfg, s, r, c), cfg.Group(r), s.progs[r];
    StepIsLocal(cfg, s, r, c);
    assert ProgOk(cfg, s, r);
    if p.pc.Loading? {
      LoaderKeeps(cfg, s, r, c);
    } else if !n.progs[r].Stored() {
      StoredElsewhere(cfg, s, n, r, k);
      forall d | 0 <= d < cfg.w ensures Total(cfg, n, k, d) == Total(cfg, s, k, d) {
        TotalDepends(cfg, s, n, k, d);
      }
      if p.pc.Testing? {
        CountMeansStored(cfg, s, r);
      }
      if p.pc.Marking? {
        forall d | 0 <= d < cfg.w ensures Total(cfg, s, k, d) == 0.0 {
          SumOfNone(cfg, d, cfg.m);
        }
      }
    }
  }

  lemma LoaderKeeps(cfg: Config, s: State, r: nat, c: nat)
    requires Invariant(cfg, s) && r < cfg.m && s.progs[r].pc.Loading?
    ensures ProgOk(cfg, Step(cfg, s, r, c), r)
  {
    hide LockOk, CountOk, CellOk, StoredRows, Exclusive, Total;
    var n, k := Step(cfg, s, r, c), cfg.Group(r);
    StepIsLocal(cfg, s, r, c);
    assert ProgOk(cfg, s, r);
    StoredElsewhere(cfg, s, n, r, k);
    if c < cfg.w {
      NoneStoring(cfg, s, r, c);
    }
    forall d | 0 <= d < cfg.w ensures Total(cfg, n, k, d) == Total(cfg, s, k, d) {
      TotalDepends(cfg, s, n, k, d);
    }
  }

  // While one program loads, no other stores, so the cell it reads holds the finished sum.
  lemma NoneStoring(cfg: Config, s: State, r: nat, c: nat)
    requires Invariant(cfg, s) && r < cfg.m && s.progs[r].pc.Loading? && c < cfg.w
    ensures s.buf[cfg.Group(r)][c] == Total(cfg, s, cfg.Group(r), c)
  {
    hide LockOk, CountOk, StoredRows, Total;
    assert ProgOk(cfg, s, r) && CellOk(cfg, s, cfg.Group(r), c);
    forall q | 0 <= q < cfg.m && cfg.Group(q) == cfg.Group(r) ensures !Overwritten(s, q, c) {
      assert s.progs[r].Inside();
      assert q == r || !s.progs[q].Inside();
    }
  }

  lemma CellsElsewhereKeep(cfg: Config, s: State, r: nat, c: nat, k: nat, d: nat)
    requires Invariant(cfg, s) && r < cfg.m && k < cfg.g && d < cfg.w && k != cfg.Group(r)
    ensures CellOk(cfg, Step(cfg, s, r, c), k, d)
  {
    hide LockOk, CountOk, ProgOk, StoredRows, Exclusive;
    var n := Step(cfg, s, r, c);
    StepIsLocal(cfg, s, r, c);
    assert CellOk(cfg, s, k, d);
    StoredElsewhere(cfg, s, n, r, k);
    forall q | 0 <= q < cfg.m && cfg.Group(q) == k ensures Overwritten(n, q, d) == Overwritten(s, q, d) && n.progs[q] == s.progs[q] {
    }
  }

  // Only the mover can be storing in its group, if it is inside.
  lemma OnlyMoverStores(cfg: Config, s: State, r: nat, q: nat, d: nat)
    requires Shaped(cfg, s) && Exclusive(cfg, s) && r < cfg.m && q < cfg.m && q != r && cfg.Group(q) == cfg.Group(r) && s.progs[r].Inside()
    ensures !Overwritten(s, q, d)
  {
    assert !s.progs[q].Inside();
  }

  lemma CellsHereKeep(cfg: Config, s: State, r: nat, c: nat, d: nat)
    requires Invariant(cfg, s) && r < cfg.m && d < cfg.w
    ensures CellOk(cfg, Step(cfg, s, r, c), cfg.Group(r), d)
  {
    hide LockOk, CountOk, StoredRows, Exclusive, Total;
    var n, k, p := Step(cfg, s, r, c), cfg.Group(r), s.progs[r];
    StepIsLocal(cfg, s, r, c);
    assert CellOk(cfg, s, k, d) && ProgOk(cfg, s, r);
    forall q | 0 <= q < cfg.m && q != r ensures Overwritten(n, q, d) == Overwritten(s, q, d) && n.progs[q] == s.progs[q] {
    }
    if p.Inside() {
      forall q | 0 <= q < cfg.m && q != r && cfg.Group(q) == k ensures !Overwritten(s, q, d) {
        OnlyMoverStores(cfg, s, r, q, d);
      }
    }
    if p.Stored() == n.progs[r].Stored() {
      StoredElsewhere(cfg, s, n, r, k);
      TotalDepends(cfg, s, n, k, d);
    } else {
      StoredHere(cfg, s, n, r);
      TotalGrows(cfg, s, n, r, d);
    }
  }

  lemma TotalDepends(cfg: Config, s: State, n: State, k: nat, d: nat)
    requires cfg.Valid() && d < cfg.w && StoredRows(cfg, n, k) == StoredRows(cfg, s, k)
    ensures Total(cfg, n, k, d) == Total(cfg, s, k, d)
  {
  }

  lemma TotalGrows(cfg: Config, s: State, n: State, r: nat, d: nat)
    requires cfg.Valid() && d < cfg.w && r < cfg.m && r !in StoredRows(cfg, s, cfg.Group(r))
    requires StoredRows(cfg, n, cfg.Group(r)) == StoredRows(cfg, s, cfg.Group(r)) + {r}
    ensures Total(cfg, n, cfg.Group(r), d) == Total(cfg, s, cfg.Group(r), d) + cfg.partial[r][d]
  {
    SumOfAdd(cfg, StoredRows(cfg, s, cfg.Group(r)), r, d, cfg.m);
  }

  /** Every step of any program keeps the invariant. */
  lemma StepKeepsInvariant(cfg: Config, s: State, r: nat, c: nat)
    requires Invariant(cfg, s) && r < cfg.m
    ensures Invariant(cfg, Step(cfg, s, r, c))
  {
    hide LockOk, CountOk, ProgOk, CellOk, Exclusive, Step;
    var n := Step(cfg, s, r, c);
    StepKeepsExclusive(cfg, s, r, c);
    forall k | 0 <= k < cfg.g ensures LockOk(cfg, n, k) && CountOk(cfg, n, k) {
      StepKeepsLock(cfg, s, r, c, k);
      StepKeepsCount(cfg, s, r, c, k);
    }
    forall q | 0 <= q < cfg.m ensures ProgOk(cfg, n, q) {
      if q == r {
        MoverKeeps(cfg, s, r, c);
      } else {
        OthersKeep(cfg, s, r, c, q);
      }
    }
    forall k, d | 0 <= k < cfg.g && 0 <= d < cfg.w ensures CellOk(cfg, n, k, d) {
      if k == cfg.Group(r) {
        CellsHereKeep(cfg, s, r, c, d);
      } else {
        CellsElsewhereKeep(cfg, s, r, c, k, d);
      }
    }
  }

  lemma {:induction false} RunKeepsInvariant(cfg: Config, run: seq<State>)
    requires IsRun(cfg, run)
    ensures Invariant(cfg, run[|run| - 1])
  {
    hide Step, Invariant, Initial;
    if |run| == 1 {
      InitialInvariant(cfg, run[0]);
    } else {
      var front := run[..|run| - 1];
      RunKeepsInvariant(cfg, front);
      var s := run[|run| - 2];
      assert front[|front| - 1] == s && Next(cfg, run[|run| - 2], run[|run| - 1]);
      InvariantShaped(cfg, s);
      var r: nat, c: nat :| r < cfg.m && run[|run| - 1] == Step(cfg, s, r, c);
      StepKeepsInvariant(cfg, s, r, c);
    }
  }

  lemma InvariantShaped(cfg: Config, s: State)
    requires Invariant(cfg, s)
    ensures Shaped(cfg, s)
  {
  }
}
