/** AllocationAnalysis::buildInterferenceGraph and allocate, and the loop that repeats them
(lib/Analysis/Allocation.cpp:552-564, 639-725). */
module Coloring {
  import opened Intervals
  import opened Placement

  // ---------- interference ----------

  // inDifferentRegion
  predicate DifferentRegion(a: set<int>, b: set<int>) {
    if a == {} && b == {} then false
    else if a == {} || b == {} then true
    else exists t1, t2 :: t1 in a && t2 in b && t1 != t2
  }

  predicate TwoRegions(s: set<int>) {
    exists t1, t2 :: t1 in s && t2 in s && t1 != t2
  }

  // Whoever has more than one region is in a different one than anybody else.
  lemma TwoRegionsDiffer(a: set<int>, b: set<int>)
    requires TwoRegions(a)
    ensures DifferentRegion(a, b)
  {
    var t1, t2 :| t1 in a && t2 in a && t1 != t2;
    if forall t: int :: t !in b {
      assert b == {};
    } else {
      var t :| t in b;
      var u := if t1 != t then t1 else t2;
      assert u in a && t in b && u != t;
    }
  }

  lemma Element<T>(s: set<T>) returns (t: T)
    requires s != {}
    ensures t in s
  {
    t :| t in s;
  }

  lemma OtherRegionsDiffer(a: set<int>, b: set<int>)
    requires a != b
    ensures DifferentRegion(a, b)
  {
    if a != {} && b != {} {
      if a - b != {} {
        var t := Element(a - b);
        var u := Element(b);
        assert t in a && u in b && t != u;
      } else {
        assert b - a != {};
        var t := Element(a);
        var u := Element(b - a);
        assert t in a && u in b && t != u;
      }
    }
  }

  lemma TwoElements(s: set<int>, t: int, u: int)
    requires t in s && u in s && t != u
    ensures |s| > 1
  {
    assert |s - {t}| == |s| - 1 && u in s - {t};
  }

  // Two buffers are in no different region iff both are in the same single one, or neither in any.
  lemma SameRegionIff(a: set<int>, b: set<int>)
    ensures !DifferentRegion(a, b) <==> a == b && |a| <= 1
  {
    if a != b {
      OtherRegionsDiffer(a, b);
    } else if |a| > 1 {
      var t := Element(a);
      assert |a - {t}| == |a| - 1;
      var u := Element(a - {t});
      TwoRegionsDiffer(a, b);
    } else if DifferentRegion(a, b) {
      var t1, t2 :| t1 in a && t2 in a && t1 != t2;
      TwoElements(a, t1, t2);
    }
  }

  function Memory(i: Info, offset: nat): Interval {
    Interval(offset, offset + i.size)
  }

  /** Two buffers interfere if their memory intersects while both are live or in different regions. */
  predicate Conflict(x: Info, xo: nat, y: Info, yo: nat) {
    Memory(x, xo).Intersects(Memory(y, yo)) && (x.live.Intersects(y.live) || DifferentRegion(x.regionIds, y.regionIds))
  }

  predicate Interferes(x: Buffer, y: Buffer)
    reads x, y
  {
    x != y && Conflict(x.info, x.offset, y.info, y.offset)
  }

  // The bytes of one buffer end before those of the other start, or its live range does and both
  // are in the same single region or in none.
  ghost predicate KeptApart(x: Buffer, y: Buffer)
    reads x, y
  {
    || x.offset + x.info.size <= y.offset
    || y.offset + y.info.size <= x.offset
    || (&& (x.info.live.end <= y.info.live.start || y.info.live.end <= x.info.live.start)
        && x.info.regionIds == y.info.regionIds && |x.info.regionIds| <= 1)
  }

  /** Two buffers interfere exactly if they are not kept apart. */
  lemma InterferesIff(x: Buffer, y: Buffer)
    requires x != y
    ensures Interferes(x, y) <==> !KeptApart(x, y)
  {
    hide DifferentRegion;
    SameRegionIff(x.info.regionIds, y.info.regionIds);
  }

  lemma ConflictSymmetric(x: Info, xo: nat, y: Info, yo: nat)
    ensures Conflict(x, xo, y, yo) == Conflict(y, yo, x, xo)
  {
    if DifferentRegion(x.regionIds, y.regionIds) && x.regionIds != {} && y.regionIds != {} {
      var t1, t2 :| t1 in x.regionIds && t2 in y.regionIds && t1 != t2;
      assert t2 in y.regionIds && t1 in x.regionIds && t2 != t1;
    }
    if DifferentRegion(y.regionIds, x.regionIds) && x.regionIds != {} && y.regionIds != {} {
      var t1, t2 :| t1 in y.regionIds && t2 in x.regionIds && t1 != t2;
      assert t2 in x.regionIds && t1 in y.regionIds && t2 != t1;
    }
  }

  // DenseMap<Buffer *, DenseSet<Buffer *>>: only buffers with a neighbour have an entry.
  type Graph = map<Buffer, set<Buffer>>

  function Lookup(g: Graph, x: Buffer): set<Buffer> {
    if x in g then g[x] else {}
  }

  ghost predicate GraphOver(g: Graph, buffers: seq<Buffer>) {
    forall x :: x in g ==> x in buffers && g[x] != {} && forall y :: y in g[x] ==> y in buffers
  }

  ghost predicate IsInterference(g: Graph, buffers: seq<Buffer>)
    reads buffers
  {
    && GraphOver(g, buffers)
    && forall x, y :: x in buffers && y in buffers ==> (y in Lookup(g, x) <==> Interferes(x, y))
  }

  // Neighbours of x among the first k buffers.
  method Neighbours(x: Buffer, buffers: seq<Buffer>) returns (s: set<Buffer>)
    ensures s == set y | y in buffers && Interferes(x, y)
  {
    s := {};
    for j := 0 to |buffers|
      invariant s == set y | y in buffers[..j] && Interferes(x, y)
    {
      var y := buffers[j];
      if x != y && Conflict(x.info, x.offset, y.info, y.offset) {
        s := s + {y};
      }
      assert buffers[..j + 1] == buffers[..j] + [y];
    }
    assert buffers[..|buffers|] == buffers;
  }

  /** `buildInterferenceGraph` */
  method BuildInterferenceGraph(buffers: seq<Buffer>) returns (g: Graph)
    ensures IsInterference(g, buffers)
  {
    g := map[];
    for i := 0 to |buffers|
      invariant GraphOver(g, buffers)
      invariant forall x, y :: x in buffers[..i] && y in buffers ==> (y in Lookup(g, x) <==> Interferes(x, y))
      invariant forall x :: x in g ==> x in buffers[..i]
    {
      assert buffers[..i + 1] == buffers[..i] + [buffers[i]];
      var s := Neighbours(buffers[i], buffers);
      if s != {} {
        g := g[buffers[i] := s];
      }
    }
    assert buffers[..|buffers|] == buffers;
  }

  // ---------- first-fit colouring ----------

  // Index of the first entry that is still available, or the number of entries.
  function FirstTrue(a: seq<bool>): (i: nat)
    ensures i <= |a|
    ensures i < |a| ==> a[i]
    ensures forall k :: 0 <= k < i ==> !a[k]
  {
    if |a| == 0 then 0 else if a[0] then 0 else 1 + FirstTrue(a[1..])
  }

  ghost predicate Coloured(buffers: seq<Buffer>, colors: map<Buffer, int>) {
    forall b :: b in buffers ==> b in colors
  }

  // A neighbour of buffer k that comes earlier has colour 0.
  ghost predicate HasZeroBefore(g: Graph, buffers: seq<Buffer>, colors: map<Buffer, int>, k: nat)
    requires k < |buffers| && Coloured(buffers, colors)
  {
    exists j :: 0 <= j < k && buffers[j] in Lookup(g, buffers[k]) && colors[buffers[j]] == 0
  }

  /** The first i buffers are coloured: at most by their position, and by 0 unless a neighbour
      that comes earlier is coloured 0. */
  ghost predicate ColoursUpTo(g: Graph, buffers: seq<Buffer>, colors: map<Buffer, int>, i: nat) {
    && i <= |buffers| && Coloured(buffers, colors)
    && (forall k :: 0 <= k < i ==> 0 <= colors[buffers[k]] <= k)
    && (forall k :: i <= k < |buffers| ==> colors[buffers[k]] == if k == 0 then 0 else -1)
    && (forall k :: 0 <= k < i ==> (colors[buffers[k]] != 0 <==> HasZeroBefore(g, buffers, colors, k)))
  }

  // Buffers that are joined have different colours, as far as buffers are coloured.
  ghost predicate ProperUpTo(g: Graph, buffers: seq<Buffer>, colors: map<Buffer, int>, i: nat) {
    && i <= |buffers| && Coloured(buffers, colors)
    && forall j, k :: 0 <= j < k < i && buffers[j] in Lookup(g, buffers[k]) ==> colors[buffers[j]] != colors[buffers[k]]
  }

  ghost predicate Symmetric(g: Graph) {
    forall x, y :: x in g && y in Lookup(g, x) ==> x in Lookup(g, y)
  }

  lemma ProperEverywhere(g: Graph, buffers: seq<Buffer>, colors: map<Buffer, int>, x: Buffer, y: Buffer)
    requires ProperUpTo(g, buffers, colors, |buffers|) && GraphOver(g, buffers) && Symmetric(g)
    requires x in buffers && y in Lookup(g, x) && x !in Lookup(g, x)
    ensures y in buffers && colors[x] != colors[y]
  {
    assert y in g[x];
    var p :| 0 <= p < |buffers| && buffers[p] == x;
    var q :| 0 <= q < |buffers| && buffers[q] == y;
    assert x in Lookup(g, y);
    if p < q {
      assert buffers[p] in Lookup(g, buffers[q]);
    } else {
      assert buffers[q] in Lookup(g, buffers[p]);
    }
  }

  lemma ProperStep(g: Graph, buffers: seq<Buffer>, colors: map<Buffer, int>, i: nat, available: seq<bool>)
    requires DistinctBuffers(buffers) && ColoursUpTo(g, buffers, colors, i) && ProperUpTo(g, buffers, colors, i) && i < |buffers|
    requires |available| == |buffers| && FirstTrue(available) < |buffers|
    requires forall c :: 0 <= c < |buffers| ==> (available[c] <==> forall y :: y in Lookup(g, buffers[i]) ==> y in colors && colors[y] != c)
    ensures ProperUpTo(g, buffers, colors[buffers[i] := FirstTrue(available)], i + 1)
  {
    var next := colors[buffers[i] := FirstTrue(available)];
    forall j, k | 0 <= j < k < i + 1 && buffers[j] in Lookup(g, buffers[k]) ensures next[buffers[j]] != next[buffers[k]] {
      assert buffers[j] != buffers[i];
      if k == i {
        assert available[FirstTrue(available)];
      } else {
        assert buffers[k] != buffers[i];
      }
    }
  }

  // The colours the neighbours of x already have are not available.
  method Available(neighbours: set<Buffer>, colors: map<Buffer, int>, n: nat) returns (available: seq<bool>)
    requires forall y :: y in neighbours ==> y in colors && -1 <= colors[y] < n
    ensures |available| == n
    ensures forall c :: 0 <= c < n ==> (available[c] <==> forall y :: y in neighbours ==> colors[y] != c)
  {
    available := seq(n, i => true);
    var todo := neighbours;
    while todo != {}
      invariant todo <= neighbours
      invariant |available| == n
      invariant forall c :: 0 <= c < n ==> (available[c] <==> forall y :: y in neighbours && y !in todo ==> colors[y] != c)
      decreases todo
    {
      var y :| y in todo;
      if colors[y] >= 0 {
        available := available[colors[y] := false];
      }
      todo := todo - {y};
    }
  }

  // The colour i is free for buffer i: only earlier neighbours have one.
  lemma ColourFree(g: Graph, buffers: seq<Buffer>, colors: map<Buffer, int>, i: nat, y: Buffer)
    requires DistinctBuffers(buffers) && GraphOver(g, buffers) && ColoursUpTo(g, buffers, colors, i) && i < |buffers|
    requires buffers[i] !in Lookup(g, buffers[i]) && y in Lookup(g, buffers[i])
    ensures y in colors && colors[y] != i
    ensures colors[y] == 0 ==> exists j :: 0 <= j < i && buffers[j] == y
  {
    assert y in g[buffers[i]];
    var k :| 0 <= k < |buffers| && buffers[k] == y;
    assert k != i;
  }

  // The first colour that is available is at most i, and 0 unless an earlier neighbour has it.
  lemma FirstColour(g: Graph, buffers: seq<Buffer>, colors: map<Buffer, int>, i: nat, available: seq<bool>)
    requires DistinctBuffers(buffers) && GraphOver(g, buffers) && ColoursUpTo(g, buffers, colors, i) && i < |buffers|
    requires |available| == |buffers| && buffers[i] !in Lookup(g, buffers[i])
    requires forall c :: 0 <= c < |buffers| ==> (available[c] <==> forall y :: y in Lookup(g, buffers[i]) ==> y in colors && colors[y] != c)
    ensures FirstTrue(available) <= i
    ensures FirstTrue(available) != 0 <==> HasZeroBefore(g, buffers, colors, i)
  {
    hide GraphOver, Lookup;
    var x := buffers[i];
    forall y | y in Lookup(g, x)
      ensures y in colors && colors[y] != i
      ensures colors[y] == 0 ==> exists j :: 0 <= j < i && buffers[j] == y
    {
      ColourFree(g, buffers, colors, i, y);
    }
    assert available[i];
  }

  lemma ColourStep(g: Graph, buffers: seq<Buffer>, colors: map<Buffer, int>, i: nat, available: seq<bool>)
    requires DistinctBuffers(buffers) && GraphOver(g, buffers) && ColoursUpTo(g, buffers, colors, i) && i < |buffers|
    requires |available| == |buffers| && buffers[i] !in Lookup(g, buffers[i])
    requires forall c :: 0 <= c < |buffers| ==> (available[c] <==> forall y :: y in Lookup(g, buffers[i]) ==> y in colors && colors[y] != c)
    ensures FirstTrue(available) <= i
    ensures ColoursUpTo(g, buffers, colors[buffers[i] := FirstTrue(available)], i + 1)
  {
    hide GraphOver, Lookup, HasZeroBefore, FirstTrue, DistinctBuffers;
    FirstColour(g, buffers, colors, i, available);
    ColourKeeps(g, buffers, colors, colors[buffers[i] := FirstTrue(available)], i);
  }

  // Colouring buffer i changes nothing for the others.
  lemma ColourKeeps(g: Graph, buffers: seq<Buffer>, colors: map<Buffer, int>, next: map<Buffer, int>, i: nat)
    requires DistinctBuffers(buffers) && i < |buffers| && ColoursUpTo(g, buffers, colors, i)
    requires buffers[i] in next && next == colors[buffers[i] := next[buffers[i]]]
    ensures Coloured(buffers, next)
    ensures forall k :: 0 <= k < |buffers| && k != i ==> next[buffers[k]] == colors[buffers[k]]
    ensures forall k :: 0 <= k <= i ==> (HasZeroBefore(g, buffers, next, k) <==> HasZeroBefore(g, buffers, colors, k))
  {
    hide Lookup;
    forall k | 0 <= k < |buffers| && k != i ensures next[buffers[k]] == colors[buffers[k]] {
    }
    forall k | 0 <= k <= i ensures HasZeroBefore(g, buffers, next, k) <==> HasZeroBefore(g, buffers, colors, k) {
      assert forall j :: 0 <= j < k ==> next[buffers[j]] == colors[buffers[j]];
    }
  }

  // The first buffer starts with colour 0, the others without one.
  method InitialColours(buffers: seq<Buffer>, ghost g: Graph) returns (colors: map<Buffer, int>)
    requires DistinctBuffers(buffers)
    ensures ColoursUpTo(g, buffers, colors, 0) && ProperUpTo(g, buffers, colors, 0)
  {
    colors := map[];
    for i := 0 to |buffers|
      invariant forall k :: 0 <= k < i ==> buffers[k] in colors && colors[buffers[k]] == if k == 0 then 0 else -1
    {
      colors := colors[buffers[i] := if buffers[i] == buffers[0] then 0 else -1];
    }
    forall b | b in buffers ensures b in colors {
      var k :| 0 <= k < |buffers| && buffers[k] == b;
    }
  }

  /** First-fit colouring, buffers in order: buffers that are joined get different colours. */
  method ColourBuffers(buffers: seq<Buffer>, g: Graph) returns (colors: map<Buffer, int>)
    requires DistinctBuffers(buffers) && GraphOver(g, buffers)
    requires forall x :: x in buffers ==> x !in Lookup(g, x)
    ensures ColoursUpTo(g, buffers, colors, |buffers|)
    ensures Symmetric(g) ==> forall x, y :: x in buffers && y in Lookup(g, x) ==> y in buffers && y in colors && colors[x] != colors[y]
  {
    hide ColoursUpTo, ProperUpTo, GraphOver, Lookup, Symmetric, DistinctBuffers, FirstTrue;
    colors := InitialColours(buffers, g);
    for i := 0 to |buffers|
      invariant ColoursUpTo(g, buffers, colors, i) && ProperUpTo(g, buffers, colors, i)
    {
      var x := buffers[i];
      assert x in buffers;
      ColoursOfNeighbours(g, buffers, colors, i);
      var available := Available(Lookup(g, x), colors, |buffers|);
      ColourStep(g, buffers, colors, i, available);
      ProperStep(g, buffers, colors, i, available);
      colors := colors[x := FirstTrue(available)];
    }
    AllColoured(g, buffers, colors);
    forall x, y | Symmetric(g) && x in buffers && y in Lookup(g, x) ensures y in buffers && y in colors && colors[x] != colors[y] {
      ProperEverywhere(g, buffers, colors, x, y);
    }
  }

  lemma AllColoured(g: Graph, buffers: seq<Buffer>, colors: map<Buffer, int>)
    requires ColoursUpTo(g, buffers, colors, |buffers|)
    ensures Coloured(buffers, colors)
  {
  }

  lemma ColoursOfNeighbours(g: Graph, buffers: seq<Buffer>, colors: map<Buffer, int>, i: nat)
    requires GraphOver(g, buffers) && ColoursUpTo(g, buffers, colors, i) && i < |buffers|
    ensures forall y :: y in Lookup(g, buffers[i]) ==> y in colors && -1 <= colors[y] < |buffers|
  {
    forall y | y in Lookup(g, buffers[i]) ensures y in colors && -1 <= colors[y] < |buffers| {
      assert y in g[buffers[i]];
      var k :| 0 <= k < |buffers| && buffers[k] == y;
    }
  }

  // ---------- offsets as values ----------

  ghost function Offsets(buffers: seq<Buffer>): (o: seq<nat>)
    reads buffers
    ensures |o| == |buffers| && forall i :: 0 <= i < |o| ==> o[i] == buffers[i].offset
  {
    if |buffers| == 0 then [] else
      var front := buffers[..|buffers| - 1];
      Offsets(front) + [buffers[|buffers| - 1].offset]
  }

  // Buffers k and j were joined when the graph was built.
  ghost predicate Joined(infos: seq<Info>, o: seq<nat>, k: nat, j: nat)
    requires |infos| == |o| && k < |o| && j < |o|
  {
    k != j && Conflict(infos[k], o[k], infos[j], o[j])
  }

  // The end of buffer j when buffer k is looked at: earlier buffers are at their new offsets.
  function EndSeen(infos: seq<Info>, o: seq<nat>, o': seq<nat>, k: nat, j: nat): nat
    requires |infos| == |o| == |o'| && j < |o|
  {
    (if j < k then o'[j] else o[j]) + infos[j].size
  }

  /** Buffer k is at the first aligned offset past all buffers it was joined to. */
  ghost predicate PastAll(infos: seq<Info>, o: seq<nat>, o': seq<nat>, k: nat)
    requires |infos| == |o| == |o'| && k < |o|
  {
    && infos[k].alignment > 0
    && (exists j :: 0 <= j < |o| && Joined(infos, o, k, j) && o'[k] == AlignTo(EndSeen(infos, o, o', k, j), infos[k].alignment))
    && forall j :: 0 <= j < |o| && Joined(infos, o, k, j) ==> EndSeen(infos, o, o', k, j) <= o'[k]
  }

  // Buffer k was joined to an earlier buffer that stays where it is.
  ghost predicate HasFixedBefore(infos: seq<Info>, o: seq<nat>, o': seq<nat>, k: nat)
    requires |infos| == |o| == |o'| && k < |o|
  {
    exists j :: 0 <= j < k && Joined(infos, o, k, j) && o'[j] == o[j]
  }

  ghost predicate PassAt(infos: seq<Info>, o: seq<nat>, o': seq<nat>, k: nat)
    requires |infos| == |o| == |o'| && k < |o|
  {
    if HasFixedBefore(infos, o, o', k) then o[k] < o'[k] && PastAll(infos, o, o', k) else o'[k] == o[k]
  }

  /** One pass of `allocate`: a buffer moves exactly if it was joined to an earlier one that does not,
      and then past all buffers it was joined to. */
  ghost predicate IsPass(infos: seq<Info>, o: seq<nat>, o': seq<nat>) {
    && |infos| == |o| == |o'|
    && forall k :: 0 <= k < |o| ==> PassAt(infos, o, o', k)
  }

  // ---------- termination of the repeated passes ----------

  function Power(b: nat, e: nat): (p: nat)
    ensures b > 0 ==> p > 0
  {
    if e == 0 then 1 else b * Power(b, e - 1)
  }

  // The number of buffers among the first j that end above the start of buffer k.
  function Blockers(infos: seq<Info>, o: seq<nat>, k: nat, j: nat): (c: nat)
    requires |infos| == |o| && j <= k < |o|
    ensures c <= j
  {
    if j == 0 then 0
    else Blockers(infos, o, k, j - 1) + (if o[j - 1] + infos[j - 1].size > o[k] then 1 else 0)
  }

  /** The blocker counts from buffer k on, read as digits of a number: the earliest buffer is the
      most significant digit. */
  function Weight(infos: seq<Info>, o: seq<nat>, k: nat): nat
    requires |infos| == |o| && k <= |o|
    decreases |o| - k
  {
    if k == |o| then 0
    else Blockers(infos, o, k, k) * Power(|o| + 1, |o| - 1 - k) + Weight(infos, o, k + 1)
  }

  lemma DigitBound(c: nat, b: nat, p: nat, w: nat)
    requires c < b && w < p
    ensures c * p + w < b * p
  {
    assert b * p - c * p == (b - c) * p;
    assert (b - c) * p == p + (b - c - 1) * p;
  }

  lemma {:induction false} WeightBound(infos: seq<Info>, o: seq<nat>, k: nat)
    requires |infos| == |o| && k <= |o|
    ensures Weight(infos, o, k) < Power(|o| + 1, |o| - k)
    decreases |o| - k
  {
    if k < |o| {
      WeightBound(infos, o, k + 1);
      DigitBound(Blockers(infos, o, k, k), |o| + 1, Power(|o| + 1, |o| - 1 - k), Weight(infos, o, k + 1));
    }
  }

  lemma {:induction false} SameBlockers(infos: seq<Info>, o: seq<nat>, o': seq<nat>, k: nat, j: nat)
    requires |infos| == |o| == |o'| && j <= k < |o|
    requires forall i :: 0 <= i <= k ==> o[i] == o'[i]
    ensures Blockers(infos, o, k, j) == Blockers(infos, o', k, j)
  {
    if j > 0 {
      SameBlockers(infos, o, o', k, j - 1);
    }
  }

  // Moving buffer k alone up never adds blockers, and drops those it is moved past.
  lemma {:induction false} FewerBlockers(infos: seq<Info>, o: seq<nat>, o': seq<nat>, k: nat, j: nat)
    requires |infos| == |o| == |o'| && j <= k < |o| && o[k] <= o'[k]
    requires forall i :: 0 <= i < k ==> o[i] == o'[i]
    ensures Blockers(infos, o', k, j) <= Blockers(infos, o, k, j)
    ensures (exists i :: 0 <= i < j && o[i] + infos[i].size > o[k] && o[i] + infos[i].size <= o'[k]) ==>
              Blockers(infos, o', k, j) < Blockers(infos, o, k, j)
  {
    if j > 0 {
      FewerBlockers(infos, o, o', k, j - 1);
    }
  }

  lemma BlockerPassed(infos: seq<Info>, o: seq<nat>, o': seq<nat>, k: nat) returns (j: nat)
    requires IsPass(infos, o, o') && k < |o| && o[k] != o'[k]
    ensures j < k && o[k] < o[j] + infos[j].size <= o'[k]
  {
    assert PassAt(infos, o, o', k);
    j :| 0 <= j < k && Joined(infos, o, k, j) && o'[j] == o[j];
    assert EndSeen(infos, o, o', k, j) <= o'[k];
  }

  lemma LowerDigit(c: nat, c': nat, p: nat, w: nat, w': nat)
    requires c' < c && w' < p
    ensures c' * p + w' < c * p + w
  {
    DigitBound(c', c, p, w');
  }

  lemma {:induction false} WeightDrops(infos: seq<Info>, o: seq<nat>, o': seq<nat>, k: nat, m: nat)
    requires IsPass(infos, o, o') && k <= m < |o| && o[m] != o'[m]
    requires forall i :: 0 <= i < m ==> o[i] == o'[i]
    ensures Weight(infos, o', k) < Weight(infos, o, k)
    decreases m - k
  {
    if k < m {
      SameBlockers(infos, o, o', k, k);
      WeightDrops(infos, o, o', k + 1, m);
    } else {
      var j := BlockerPassed(infos, o, o', k);
      FewerBlockers(infos, o, o', k, k);
      WeightBound(infos, o', k + 1);
      LowerDigit(Blockers(infos, o, k, k), Blockers(infos, o', k, k), Power(|o| + 1, |o| - 1 - k),
                 Weight(infos, o, k + 1), Weight(infos, o', k + 1));
    }
  }

  /** Every pass that moves a buffer lowers the weight. */
  lemma BumpLowersWeight(infos: seq<Info>, o: seq<nat>, o': seq<nat>)
    requires IsPass(infos, o, o') && o != o'
    ensures Weight(infos, o', 0) < Weight(infos, o, 0)
  {
    var m := FirstDifference(o, o', 0);
    WeightDrops(infos, o, o', 0, m);
  }

  lemma FirstDifference(o: seq<nat>, o': seq<nat>, k: nat) returns (m: nat)
    requires |o| == |o'| && k <= |o| && o[k..] != o'[k..]
    requires forall i :: 0 <= i < k ==> o[i] == o'[i]
    ensures k <= m < |o| && o[m] != o'[m] && forall i :: 0 <= i < m ==> o[i] == o'[i]
    decreases |o| - k
  {
    if o[k] != o'[k] {
      m := k;
    } else {
      assert o[k..] == [o[k]] + o[k + 1..] && o'[k..] == [o'[k]] + o'[k + 1..];
      m := FirstDifference(o, o', k + 1);
    }
  }
}
