/** Grouped, tiled matrix multiplication (python/tutorials/03-matrix-multiplication.py:237-355)
in exact arithmetic, on flat memory. */
module Matmul {
  import opened Arith

  // ---------- program ids ----------

  // first_pid_m: the first row of tiles of the program's group.
  function FirstOf(nn: nat, g: nat, pid: nat): nat
    requires g * nn > 0
  {
    pid / (g * nn) * g
  }

  // The program's place in its group.
  function PlaceOf(nn: nat, g: nat, pid: nat): nat
    requires g * nn > 0
  {
    pid % (g * nn)
  }

  // group_size_m
  function SizeOf(nm: nat, g: nat, first: nat): nat
    requires first <= nm
  {
    Min(nm - first, g)
  }

  /** pid_m and pid_n of the source, for nm by nn tiles in groups of g rows of tiles. */
  function TileOf(nm: nat, nn: nat, g: nat, pid: nat): (t: (nat, nat))
    requires g > 0 && pid < nm * nn
    ensures t.0 < nm && t.1 < nn
  {
    TileInRange(nm, nn, g, pid);
    var first, place := FirstOf(nn, g, pid), PlaceOf(nn, g, pid);
    var size := SizeOf(nm, g, first);
    (first + place % size, place / size)
  }

  // The program that owns a tile.
  function PidOf(nm: nat, nn: nat, g: nat, tm: nat, tn: nat): (pid: nat)
    requires g > 0 && tm < nm && tn < nn
  {
    FirstRow(tm, g);
    var first := tm / g * g;
    first * nn + (tn * SizeOf(nm, g, first) + (tm - first))
  }

  lemma FirstRow(tm: nat, g: nat)
    requires g > 0
    ensures tm / g * g <= tm < tm / g * g + g
  {
  }

  lemma AtLeast(a: nat, b: nat, c: nat)
    ensures a >= b ==> a * c >= b * c
  {
    if a >= b {
      assert a * c - b * c == (a - b) * c;
    }
  }

  lemma Product(a: nat, b: nat, c: nat)
    requires a < b
    ensures a * c + c <= b * c
  {
    assert b * c - a * c == (b - a) * c;
    Multiples(b - a, c);
  }

  // A division by a product is bounded like the product.
  lemma QuotientBound(v: nat, d: nat, b: nat)
    requires d > 0 && v < b * d
    ensures v / d < b
  {
    assert v / d * d <= v;
    AtLeast(v / d, b, d);
  }

  lemma PlaceSplits(nn: nat, g: nat, pid: nat)
    requires g * nn > 0
    ensures pid == FirstOf(nn, g, pid) * nn + PlaceOf(nn, g, pid) && PlaceOf(nn, g, pid) < g * nn
  {
    var group := pid / (g * nn);
    Assoc(group, g, nn);
  }

  /** A last group may hold fewer than g rows of tiles, never none. */
  lemma TileInRange(nm: nat, nn: nat, g: nat, pid: nat)
    requires g > 0 && pid < nm * nn
    ensures g * nn > 0 && FirstOf(nn, g, pid) < nm
    ensures var first, place := FirstOf(nn, g, pid), PlaceOf(nn, g, pid);
            var size := SizeOf(nm, g, first);
            0 < size <= g && first + size <= nm && first + place % size < nm && place / size < nn
  {
    hide FirstOf, PlaceOf;
    Positive(nm, nn, pid);
    Positive2(g, nn);
    PlaceSplits(nn, g, pid);
    var first, place := FirstOf(nn, g, pid), PlaceOf(nn, g, pid);
    AtLeast(first, nm, nn);
    var size := SizeOf(nm, g, first);
    PlaceFits(nm, nn, g, first, place);
    QuotientBound(place, size, nn);
  }

  lemma PlaceFits(nm: nat, nn: nat, g: nat, first: nat, place: nat)
    requires first < nm && first * nn + place < nm * nn && place < g * nn
    ensures place < nn * SizeOf(nm, g, first)
  {
    Distribute(nm, first, nn);
    Swap(g, nn);
    Swap(nm - first, nn);
  }

  lemma Positive(nm: nat, nn: nat, pid: nat)
    requires pid < nm * nn
    ensures nm > 0 && nn > 0
  {
  }

  lemma Positive2(g: nat, nn: nat)
    requires g > 0 && nn > 0
    ensures g * nn > 0
  {
  }

  lemma Assoc(a: nat, b: nat, c: nat)
    ensures a * (b * c) == a * b * c
  {
  }

  lemma Swap(a: nat, b: nat)
    ensures a * b == b * a
  {
  }

  lemma Distribute(a: nat, b: nat, c: nat)
    requires b <= a
    ensures (a - b) * c == a * c - b * c
  {
  }

  /** pid -> (pid_m, pid_n) is one-to-one: the tile determines the program. */
  lemma PidOfTile(nm: nat, nn: nat, g: nat, pid: nat)
    requires g > 0 && pid < nm * nn
    ensures var t := TileOf(nm, nn, g, pid); PidOf(nm, nn, g, t.0, t.1) == pid
  {
    hide PlaceOf, SizeOf;
    TileInRange(nm, nn, g, pid);
    PlaceSplits(nn, g, pid);
    var first, place := FirstOf(nn, g, pid), PlaceOf(nn, g, pid);
    var size := SizeOf(nm, g, first);
    FirstOfTile(nn, g, pid, place % size, size);
    DivModSplit(place, size);
  }

  lemma DivModSplit(v: nat, d: nat)
    requires d > 0
    ensures v == v / d * d + v % d && v % d < d
  {
  }

  lemma FirstOfTile(nn: nat, g: nat, pid: nat, e: nat, size: nat)
    requires g > 0 && g * nn > 0 && e < size <= g
    ensures (FirstOf(nn, g, pid) + e) / g * g == FirstOf(nn, g, pid)
  {
    DivModUnique(FirstOf(nn, g, pid) + e, g, pid / (g * nn), e);
  }

  /** ... and onto: every tile has a program in the grid, also in a short last group. */
  lemma TileOfPid(nm: nat, nn: nat, g: nat, tm: nat, tn: nat)
    requires g > 0 && tm < nm && tn < nn
    ensures PidOf(nm, nn, g, tm, tn) < nm * nn
    ensures TileOf(nm, nn, g, PidOf(nm, nn, g, tm, tn)) == (tm, tn)
  {
    hide FirstOf, PlaceOf;
    FirstRow(tm, g);
    var first := tm / g * g;
    var size := SizeOf(nm, g, first);
    var place := tn * size + (tm - first);
    Product(tn, nn, size);
    Swap(size, nn);
    GroupFits(first, size, nm, nn, place);
    Positive2(g, nn);
    InGroup(size, g, nn);
    PlaceIn(nn, g, tm / g, place);
    DivModUnique(place, size, tn, tm - first);
  }

  // Groups of g rows of tiles one after the other, each column by column.
  predicate Earlier(g: nat, t: (nat, nat), u: (nat, nat))
    requires g > 0
  {
    t.0 / g < u.0 / g || (t.0 / g == u.0 / g && (t.1 < u.1 || (t.1 == u.1 && t.0 < u.0)))
  }

  lemma PidGrows(nm: nat, nn: nat, g: nat, t: (nat, nat), u: (nat, nat))
    requires g > 0 && t.0 < nm && t.1 < nn && u.0 < nm && u.1 < nn && Earlier(g, t, u)
    ensures PidOf(nm, nn, g, t.0, t.1) < PidOf(nm, nn, g, u.0, u.1)
  {
    FirstRow(t.0, g);
    FirstRow(u.0, g);
    var ft, fu := t.0 / g * g, u.0 / g * g;
    var st, su := SizeOf(nm, g, ft), SizeOf(nm, g, fu);
    if t.0 / g < u.0 / g {
      Product(t.0 / g, u.0 / g, g);
      GroupBefore(nn, ft, st, t.1, t.0 - ft, fu, su, u.1, u.0 - fu);
    } else if t.1 < u.1 {
      ColumnBefore(st, t.1, t.0 - ft, u.1, u.0 - ft);
    }
  }

  lemma GroupBefore(nn: nat, ft: nat, st: nat, tn: nat, e: nat, fu: nat, su: nat, un: nat, f: nat)
    requires ft + st <= fu && e < st && tn < nn
    ensures ft * nn + (tn * st + e) < fu * nn + (un * su + f)
  {
    Product(tn, nn, st);
    Swap(nn, st);
    AtLeast(fu, ft + st, nn);
    assert (ft + st) * nn == ft * nn + st * nn;
    Nonnegative(un, su);
  }

  lemma Nonnegative(a: nat, b: nat)
    ensures a * b >= 0
  {
  }

  lemma ColumnBefore(size: nat, tn: nat, e: nat, un: nat, f: nat)
    requires e < size && tn < un
    ensures tn * size + e < un * size + f
  {
    Product(tn, un, size);
  }

  /** Programs take the tiles in that order. */
  lemma TilesInOrder(nm: nat, nn: nat, g: nat, p: nat, q: nat)
    requires g > 0 && p < nm * nn && q < nm * nn
    ensures p < q <==> Earlier(g, TileOf(nm, nn, g, p), TileOf(nm, nn, g, q))
  {
    hide PidOf;
    PidOfTile(nm, nn, g, p);
    PidOfTile(nm, nn, g, q);
    var t, u := TileOf(nm, nn, g, p), TileOf(nm, nn, g, q);
    hide TileOf;
    if Earlier(g, t, u) {
      PidGrows(nm, nn, g, t, u);
    } else if t != u {
      PidGrows(nm, nn, g, u, t);
    }
  }

  lemma PlaceIn(nn: nat, g: nat, group: nat, place: nat)
    requires g * nn > 0 && place < g * nn
    ensures FirstOf(nn, g, group * g * nn + place) == group * g && PlaceOf(nn, g, group * g * nn + place) == place
  {
    Assoc(group, g, nn);
    DivModUnique(group * g * nn + place, g * nn, group, place);
  }

  lemma GroupFits(first: nat, size: nat, nm: nat, nn: nat, r: nat)
    requires first + size <= nm && r < size * nn
    ensures first * nn + r < nm * nn
  {
    assert (first + size) * nn == first * nn + size * nn;
    assert nm * nn - (first + size) * nn == (nm - first - size) * nn;
  }

  lemma InGroup(size: nat, g: nat, nn: nat)
    requires size <= g
    ensures size * nn <= g * nn
  {
    assert g * nn - size * nn == (g - size) * nn;
  }

  // ---------- the operands in memory ----------

  /** A is m by k and contiguous; B is k by n with any strides; C is m by n, freshly allocated. */
  datatype Problem = Problem(m: nat, n: nat, k: nat, a: seq<real>, b: seq<real>, sbk: nat, sbn: nat,
                             bm: nat, bn: nat, bk: nat, g: nat, relu: bool) {
    ghost predicate Valid() {
      && bm > 0 && bn > 0 && bk > 0 && g > 0
      && |a| == m * k
      && forall x, y :: 0 <= x < k && 0 <= y < n ==> x * sbk + y * sbn < |b|
    }

    lemma InA(r: nat, x: nat)
      requires Valid() && r < m && x < k
      ensures r * k + x < |a|
    {
      Product(r, m, k);
    }

    function A(r: nat, x: nat): real
      requires Valid() && r < m && x < k
    {
      InA(r, x);
      a[r * k + x]
    }

    function B(x: nat, c: nat): real
      requires Valid() && x < k && c < n
    {
      b[x * sbk + c * sbn]
    }

    // Sum of A[r, x] * B[x, c] over the first l values of x.
    ghost function Dot(r: nat, c: nat, l: nat): real
      requires Valid() && r < m && c < n && l <= k
    {
      if l == 0 then 0.0 else Dot(r, c, l - 1) + A(r, l - 1) * B(l - 1, c)
    }

    function Activate(x: real): real {
      if relu && x < 0.0 then 0.01 * x else x
    }

    /** What the multiplication promises for one element of C. */
    ghost function Result(r: nat, c: nat): real
      requires Valid() && r < m && c < n
    {
      Activate(Dot(r, c, k))
    }

    function Tiles(): (t: (nat, nat))
      requires bm > 0 && bn > 0
    {
      (Cdiv(m, bm), Cdiv(n, bn))
    }

    function Grid(): nat
      requires bm > 0 && bn > 0
    {
      Tiles().0 * Tiles().1
    }
  }

  // tl.load with a mask: an unmasked access must be in bounds.
  function Load(mem: seq<real>, off: nat, mask: bool): real
    requires mask ==> off < |mem|
  {
    if mask then mem[off] else 0.0
  }

  // Position of element (r, c) in C.
  function At(n: nat, r: nat, c: nat): nat {
    r * n + c
  }

  lemma AtInRange(m: nat, n: nat, r: nat, c: nat)
    requires r < m && c < n
    ensures At(n, r, c) < m * n
  {
    Product(r, m, n);
  }

  lemma AtInjective(n: nat, r: nat, c: nat, r': nat, c': nat)
    requires c < n && c' < n && At(n, r, c) == At(n, r', c')
    ensures r == r' && c == c'
  {
    DivModUnique(At(n, r, c), n, r, c);
    DivModUnique(At(n, r, c), n, r', c');
  }

  // ---------- the loop over K ----------

  lemma StrideSplit(base: nat, x: nat, s: nat)
    ensures (base + x) * s == base * s + At(s, x, 0)
  {
  }

  /** tl.dot(a, b, accumulator) at one element: the products of one block of K. */
  method DotBlock(p: Problem, aPtr: nat, bPtr: nat, limit: int, acc0: real, ghost r: nat, ghost c: nat, ghost base: nat) returns (acc: real)
    requires p.Valid() && r < p.m && c < p.n && base <= p.k && limit == p.k - base
    requires aPtr == r * p.k + base && bPtr == c * p.sbn + base * p.sbk
    requires acc0 == p.Dot(r, c, base)
    ensures acc == p.Dot(r, c, Min(base + p.bk, p.k))
  {
    hide p.Valid;
    acc := acc0;
    for x := 0 to p.bk
      invariant acc == p.Dot(r, c, Min(base + x, p.k))
    {
      var off := At(p.sbk, x, 0);
      var mask := x < limit;
      if mask {
        Element(p, r, c, base, x, aPtr + x, bPtr + off);
      }
      acc := acc + Load(p.a, aPtr + x, mask) * Load(p.b, bPtr + off, mask);
    }
  }

  // Within K, both pointers are in bounds and the product is the next term of the sum.
  lemma Element(p: Problem, r: nat, c: nat, base: nat, x: nat, i: nat, j: nat)
    requires p.Valid() && r < p.m && c < p.n && base + x < p.k
    requires i == r * p.k + base + x && j == c * p.sbn + base * p.sbk + At(p.sbk, x, 0)
    ensures i < |p.a| && j < |p.b|
    ensures p.Dot(r, c, base + x + 1) == p.Dot(r, c, base + x) + p.a[i] * p.b[j]
  {
    p.InA(r, base + x);
    StrideSplit(base, x, p.sbk);
    assert j == (base + x) * p.sbk + c * p.sbn;
    assert p.A(r, base + x) == p.a[i] && p.B(base + x, c) == p.b[j];
  }

  ghost predicate IsTile(t: seq<seq<real>>, bm: nat, bn: nat) {
    |t| == bm && forall i :: 0 <= i < bm ==> |t[i]| == bn
  }

  // Offsets that wrap around the end of the dimension.
  function Wrapped(tile: nat, size: nat, i: nat, n: nat): (o: nat)
    requires n > 0
    ensures o < n && (tile * size + i < n ==> o == tile * size + i)
  {
    Wrap(tile * size + i, n)
  }

  function Wrap(v: nat, n: nat): (o: nat)
    requires n > 0
    ensures o < n && (v < n ==> o == v)
  {
    v % n
  }

  ghost predicate Accumulated(p: Problem, t: (nat, nat), acc: seq<seq<real>>, l: nat)
    requires p.Valid() && p.m > 0 && p.n > 0 && l <= p.k
  {
    && IsTile(acc, p.bm, p.bn)
    && forall i, j :: 0 <= i < p.bm && 0 <= j < p.bn ==> acc[i][j] == p.Dot(Wrapped(t.0, p.bm, i, p.m), Wrapped(t.1, p.bn, j, p.n), l)
  }

  // One block of K for one row of the tile.
  method AccumulateRow(p: Problem, t: (nat, nat), kBlock: nat, aAdvance: nat, bAdvance: nat, r: nat, row0: seq<real>) returns (row: seq<real>)
    requires p.Valid() && p.n > 0 && r < p.m && kBlock * p.bk <= p.k && |row0| == p.bn
    requires aAdvance == kBlock * p.bk && bAdvance == kBlock * p.bk * p.sbk
    requires forall j :: 0 <= j < p.bn ==> row0[j] == p.Dot(r, Wrapped(t.1, p.bn, j, p.n), kBlock * p.bk)
    ensures |row| == p.bn && forall j :: 0 <= j < p.bn ==> row[j] == p.Dot(r, Wrapped(t.1, p.bn, j, p.n), Min(kBlock * p.bk + p.bk, p.k))
  {
    hide p.Valid, Wrapped, p.Dot;
    row := [];
    for j := 0 to p.bn
      invariant |row| == j && forall y :: 0 <= y < j ==> row[y] == p.Dot(r, Wrapped(t.1, p.bn, y, p.n), Min(kBlock * p.bk + p.bk, p.k))
    {
      var c := Wrapped(t.1, p.bn, j, p.n);
      var e := DotBlock(p, r * p.k + aAdvance, c * p.sbn + bAdvance, p.k - kBlock * p.bk, row0[j], r, c, kBlock * p.bk);
      row := row + [e];
    }
  }

  /** One block of K for the whole tile of accumulators; the pointers have been advanced to it. */
  method Accumulate(p: Problem, t: (nat, nat), kBlock: nat, aAdvance: nat, bAdvance: nat, acc0: seq<seq<real>>) returns (acc: seq<seq<real>>)
    requires p.Valid() && p.m > 0 && p.n > 0 && kBlock * p.bk <= p.k
    requires aAdvance == kBlock * p.bk && bAdvance == kBlock * p.bk * p.sbk
    requires Accumulated(p, t, acc0, kBlock * p.bk)
    ensures Accumulated(p, t, acc, Min(kBlock * p.bk + p.bk, p.k))
  {
    hide p.Valid, Wrapped, p.Dot;
    ghost var l := Min(kBlock * p.bk + p.bk, p.k);
    acc := [];
    for i := 0 to p.bm
      invariant |acc| == i && forall x :: 0 <= x < i ==> |acc[x]| == p.bn
      invariant forall x, y :: 0 <= x < i && 0 <= y < p.bn ==> acc[x][y] == p.Dot(Wrapped(t.0, p.bm, x, p.m), Wrapped(t.1, p.bn, y, p.n), l)
    {
      var row := AccumulateRow(p, t, kBlock, aAdvance, bAdvance, Wrapped(t.0, p.bm, i, p.m), acc0[i]);
      acc := acc + [row];
    }
  }

  method AccumulateAll(p: Problem, t: (nat, nat)) returns (acc: seq<seq<real>>)
    requires p.Valid() && p.m > 0 && p.n > 0
    ensures Accumulated(p, t, acc, p.k)
  {
    hide p.Valid, Wrapped, Cdiv;
    acc := seq(p.bm, i => seq(p.bn, j => 0.0));
    var aAdvance, bAdvance := 0, 0;
    var blocks := Blocks(p);
    CdivReaches(p.k, BlockSize(p));
    for kb := 0 to blocks
      invariant aAdvance == kb * p.bk && bAdvance == kb * p.bk * p.sbk
      invariant Accumulated(p, t, acc, Min(kb * p.bk, p.k))
    {
      BlockStarts(kb, blocks, p.bk, p.k);
      acc := Accumulate(p, t, kb, aAdvance, bAdvance, acc);
      aAdvance := aAdvance + p.bk;
      bAdvance := bAdvance + p.bk * p.sbk;
      NextBlock(kb, p.bk, p.sbk);
    }
  }

  function BlockSize(p: Problem): (b: nat)
    requires p.Valid()
    ensures b == p.bk && b > 0
  {
    p.bk
  }

  function Blocks(p: Problem): nat
    requires p.Valid()
  {
    Cdiv(p.k, p.bk)
  }

  lemma BlockStarts(kb: nat, blocks: nat, b: nat, k: nat)
    requires kb < blocks && (blocks - 1) * b < k
    ensures kb * b < k
  {
    AtLeast(blocks - 1, kb, b);
  }

  lemma NextBlock(kb: nat, b: nat, s: nat)
    ensures (kb + 1) * b == kb * b + b && (kb + 1) * b * s == kb * b * s + b * s
  {
  }

  // ---------- the store ----------

  function Cell(p: Problem, c: seq<real>, r: nat, q: nat): real
    requires |c| == p.m * p.n && r < p.m && q < p.n
  {
    AtInRange(p.m, p.n, r, q);
    c[At(p.n, r, q)]
  }

  lemma CellUpdated(p: Problem, c: seq<real>, r: nat, q: nat, v: real, r': nat, q': nat)
    requires |c| == p.m * p.n && r < p.m && q < p.n && r' < p.m && q' < p.n
    ensures At(p.n, r, q) < |c|
    ensures Cell(p, c[At(p.n, r, q) := v], r', q') == if r' == r && q' == q then v else Cell(p, c, r', q')
  {
    hide At;
    AtInRange(p.m, p.n, r, q);
    AtInRange(p.m, p.n, r', q');
    if At(p.n, r, q) == At(p.n, r', q') {
      AtInjective(p.n, r, q, r', q');
    }
  }

  // (r, q) is among the first i rows of the tile, or the first j elements of its row i.
  ghost predicate Reached(p: Problem, t: (nat, nat), i: nat, j: nat, r: nat, q: nat) {
    || (t.0 * p.bm <= r < t.0 * p.bm + i && t.1 * p.bn <= q < t.1 * p.bn + p.bn)
    || (r == t.0 * p.bm + i && t.1 * p.bn <= q < t.1 * p.bn + j)
  }

  ghost predicate Written(p: Problem, t: (nat, nat), was: seq<real>, c: seq<real>, i: nat, j: nat)
    requires p.Valid()
  {
    && |was| == |c| == p.m * p.n
    && forall r: nat, q: nat :: r < p.m && q < p.n ==> Cell(p, c, r, q) == if Reached(p, t, i, j, r, q) then p.Result(r, q) else Cell(p, was, r, q)
  }

  lemma WriteOne(p: Problem, t: (nat, nat), was: seq<real>, c: seq<real>, i: nat, j: nat)
    requires p.Valid() && Written(p, t, was, c, i, j) && j < p.bn
    ensures var cm, cn := t.0 * p.bm + i, t.1 * p.bn + j;
            if cm < p.m && cn < p.n then At(p.n, cm, cn) < |c| && Written(p, t, was, c[At(p.n, cm, cn) := p.Result(cm, cn)], i, j + 1)
            else Written(p, t, was, c, i, j + 1)
  {
    hide p.Result, At, Cell;
    var cm, cn := t.0 * p.bm + i, t.1 * p.bn + j;
    if cm < p.m && cn < p.n {
      AtInRange(p.m, p.n, cm, cn);
      forall r: nat, q: nat | r < p.m && q < p.n
        ensures Cell(p, c[At(p.n, cm, cn) := p.Result(cm, cn)], r, q) == if Reached(p, t, i, j + 1, r, q) then p.Result(r, q) else Cell(p, was, r, q)
      {
        CellUpdated(p, c, cm, cn, p.Result(cm, cn), r, q);
      }
    }
  }

  lemma RowDone(p: Problem, t: (nat, nat), was: seq<real>, c: seq<real>, i: nat)
    requires p.Valid() && Written(p, t, was, c, i, p.bn)
    ensures Written(p, t, was, c, i + 1, 0)
  {
    hide p.Result, At, Cell;
  }

  lemma ElementIsResult(p: Problem, t: (nat, nat), acc: seq<seq<real>>, i: nat, j: nat)
    requires p.Valid() && p.m > 0 && p.n > 0 && Accumulated(p, t, acc, p.k) && i < p.bm && j < p.bn
    requires t.0 * p.bm + i < p.m && t.1 * p.bn + j < p.n
    ensures i < |acc| && j < |acc[i]| && p.Activate(acc[i][j]) == p.Result(t.0 * p.bm + i, t.1 * p.bn + j)
  {
    hide Wrap, p.Dot;
    assert acc[i][j] == p.Dot(Wrapped(t.0, p.bm, i, p.m), Wrapped(t.1, p.bn, j, p.n), p.k);
  }

  method StoreTile(p: Problem, t: (nat, nat), acc: seq<seq<real>>, c: array<real>)
    requires p.Valid() && p.m > 0 && p.n > 0 && Accumulated(p, t, acc, p.k) && c.Length == p.m * p.n
    modifies c
    ensures Written(p, t, old(c[..]), c[..], p.bm, 0)
  {
    hide p.Valid, p.Dot, Wrap, Written, At, p.Result, p.Activate;
    ghost var was := c[..];
    NothingWritten(p, t, was);
    for i := 0 to p.bm
      invariant Written(p, t, was, c[..], i, 0)
    {
      for j := 0 to p.bn
        invariant Written(p, t, was, c[..], i, j)
      {
        WriteOne(p, t, was, c[..], i, j);
        var cm, cn := t.0 * p.bm + i, t.1 * p.bn + j;
        if cm < p.m && cn < p.n {
          ghost var before := c[..];
          ElementIsResult(p, t, acc, i, j);
          var position := At(p.n, cm, cn);
          c[position] := p.Activate(acc[i][j]);
          assert c[..] == before[position := p.Result(cm, cn)];
        }
      }
      RowDone(p, t, was, c[..], i);
    }
  }

  lemma NothingWritten(p: Problem, t: (nat, nat), c: seq<real>)
    requires p.Valid() && |c| == p.m * p.n
    ensures Written(p, t, c, c, 0, 0)
  {
  }

  // ---------- the kernel and the grid ----------

  // The tile of program pid holds element (r, q).
  ghost predicate Owns(p: Problem, pid: nat, r: nat, q: nat)
    requires p.Valid() && pid < p.Grid()
  {
    TileOf(p.Tiles().0, p.Tiles().1, p.g, pid) == (r / p.bm, q / p.bn)
  }

  lemma ReachedIsOwned(p: Problem, pid: nat, r: nat, q: nat)
    requires p.Valid() && pid < p.Grid()
    ensures Reached(p, TileOf(p.Tiles().0, p.Tiles().1, p.g, pid), p.bm, 0, r, q) <==> Owns(p, pid, r, q)
  {
    hide TileOf;
    var t := TileOf(p.Tiles().0, p.Tiles().1, p.g, pid);
    InBlock(t.0, p.bm, r);
    InBlock(t.1, p.bn, q);
  }

  lemma InBlock(t: nat, b: nat, v: nat)
    requires b > 0
    ensures t * b <= v < t * b + b <==> t == v / b
  {
    if t * b <= v < t * b + b {
      DivModUnique(v, b, t, v - t * b);
    }
    DivModSplit(v, b);
  }

  lemma GridIsEmpty(p: Problem)
    requires p.Valid() && p.Grid() > 0
    ensures p.m > 0 && p.n > 0
  {
    NoTiles(p.bm);
    NoTiles(p.bn);
  }

  lemma NoTiles(b: nat)
    requires b > 0
    ensures Cdiv(0, b) == 0
  {
    DivModUnique(b - 1, b, 0, b - 1);
  }

  ghost function OwnerOf(p: Problem, r: nat, q: nat): (owner: nat)
    requires p.Valid() && r < p.m && q < p.n
    ensures owner < p.Grid()
  {
    TileExists(r, p.m, p.bm);
    TileExists(q, p.n, p.bn);
    TileOfPid(p.Tiles().0, p.Tiles().1, p.g, r / p.bm, q / p.bn);
    PidOf(p.Tiles().0, p.Tiles().1, p.g, r / p.bm, q / p.bn)
  }

  /** Every element of C has exactly one program that stores it. */
  lemma OneOwner(p: Problem, r: nat, q: nat)
    requires p.Valid() && r < p.m && q < p.n
    ensures forall pid :: 0 <= pid < p.Grid() ==> (Owns(p, pid, r, q) <==> pid == OwnerOf(p, r, q))
  {
    hide PidOf, TileOf;
    TileExists(r, p.m, p.bm);
    TileExists(q, p.n, p.bn);
    TileOfPid(p.Tiles().0, p.Tiles().1, p.g, r / p.bm, q / p.bn);
    var owner := OwnerOf(p, r, q);
    forall pid | 0 <= pid < p.Grid() ensures Owns(p, pid, r, q) <==> pid == owner {
      PidOfTile(p.Tiles().0, p.Tiles().1, p.g, pid);
    }
  }

  lemma TileExists(v: nat, n: nat, b: nat)
    requires b > 0 && v < n
    ensures v / b < Cdiv(n, b)
  {
    CdivReaches(n, b);
    QuotientBound(v, b, Cdiv(n, b));
  }

  /** `matmul_kernel`, one program: it stores its tile of the product and nothing else. */
  method Program(p: Problem, pid: nat, c: array<real>)
    requires p.Valid() && pid < p.Grid() && c.Length == p.m * p.n
    modifies c
    ensures forall r: nat, q: nat :: r < p.m && q < p.n ==> Cell(p, c[..], r, q) == if Owns(p, pid, r, q) then p.Result(r, q) else old(Cell(p, c[..], r, q))
  {
    hide TileOf, Owns, p.Result, Cell, At, Accumulated, Cdiv;
    GridIsEmpty(p);
    var t := TileOf(p.Tiles().0, p.Tiles().1, p.g, pid);
    var acc := AccumulateAll(p, t);
    StoreTile(p, t, acc, c);
    forall r: nat, q: nat | r < p.m && q < p.n ensures Reached(p, t, p.bm, 0, r, q) <==> Owns(p, pid, r, q) {
      ReachedIsOwned(p, pid, r, q);
    }
  }

  /** Element (r, q) of C, in row-major order, is the sum over K, and a hundredth of it if it is
      negative and the activation is leaky_relu. */
  ghost predicate Multiplied(p: Problem, c: seq<real>, r: nat, q: nat)
    requires p.Valid() && r < p.m && q < p.n
  {
    var s := p.Dot(r, q, p.k);
    && r * p.n + q < |c|
    && (!p.relu || s >= 0.0 ==> c[r * p.n + q] == s)
    && (p.relu && s < 0.0 ==> 100.0 * c[r * p.n + q] == s)
  }

  lemma ResultIsMultiplied(p: Problem, c: seq<real>, r: nat, q: nat)
    requires p.Valid() && r < p.m && q < p.n && |c| == p.m * p.n && Cell(p, c, r, q) == p.Result(r, q)
    ensures Multiplied(p, c, r, q)
  {
    hide p.Dot;
    AtInRange(p.m, p.n, r, q);
  }

  /** The whole grid, in any order: every element of C is the (activated) sum over K. */
  method Launch(p: Problem, order: seq<nat>, c: array<real>)
    requires p.Valid() && c.Length == p.m * p.n
    requires forall i :: 0 <= i < |order| ==> order[i] < p.Grid()
    requires forall pid :: 0 <= pid < p.Grid() ==> pid in order
    modifies c
    ensures forall r: nat, q: nat :: r < p.m && q < p.n ==> Cell(p, c[..], r, q) == p.Result(r, q) && Multiplied(p, c[..], r, q)
  {
    hide Owns, p.Result, Cell, At, p.Valid, OwnerOf, p.Grid, Multiplied;
    for i := 0 to |order|
      invariant forall r: nat, q: nat :: r < p.m && q < p.n && (exists k :: 0 <= k < i && Owns(p, order[k], r, q)) ==> Cell(p, c[..], r, q) == p.Result(r, q)
    {
      Program(p, order[i], c);
    }
    forall r: nat, q: nat | r < p.m && q < p.n ensures Cell(p, c[..], r, q) == p.Result(r, q) && Multiplied(p, c[..], r, q) {
      OneOwner(p, r, q);
      var owner := OwnerOf(p, r, q);
      assert owner in order && Owns(p, owner, r, q);
      var k :| 0 <= k < |order| && order[k] == owner;
      ResultIsMultiplied(p, c[..], r, q);
    }
  }
}
