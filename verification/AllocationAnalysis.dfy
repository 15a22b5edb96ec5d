/** AllocationAnalysis::allocate and computeOffsets (lib/Analysis/Allocation.cpp:508-577, 680-725). */
module AllocationAnalysis {
  import opened Intervals
  import opened Placement
  import opened Coloring
  import opened Sharing

  // max over the set of offset + size, 0 if it is empty
  method MaxEnd(s: set<Buffer>) returns (m: nat)
    ensures forall y :: y in s ==> y.End() <= m
    ensures m == 0 || exists y :: y in s && y.End() == m
  {
    m := 0;
    var todo := s;
    while todo != {}
      invariant todo <= s
      invariant forall y :: y in s && y !in todo ==> y.End() <= m
      invariant m == 0 || exists y :: y in s && y.End() == m
      decreases todo
    {
      var y :| y in todo;
      if m < y.End() {
        m := y.End();
      }
      todo := todo - {y};
    }
  }

  // `size` is the largest End() of the first i buffers.
  ghost predicate IsMaxEnd(buffers: seq<Buffer>, i: nat, size: nat)
    requires i <= |buffers|
    reads buffers
  {
    && (forall k :: 0 <= k < i ==> buffers[k].End() <= size)
    && (size == 0 || exists k :: 0 <= k < i && buffers[k].End() == size)
  }

  // Any two of the buffers are kept apart.
  ghost predicate Apart(buffers: seq<Buffer>)
    reads buffers
  {
    forall x, y :: x in buffers && y in buffers && x != y ==> KeptApart(x, y)
  }

  ghost predicate EdgeAt(g: Graph, buffers: seq<Buffer>, infos: seq<Info>, o: seq<nat>, k: nat, j: nat)
    requires |infos| == |o| == |buffers| && k < |o| && j < |o|
  {
    buffers[j] in Lookup(g, buffers[k]) <==> k != j && Conflict(infos[k], o[k], infos[j], o[j])
  }

  // The graph, in terms of the offsets at the time it was built.
  ghost predicate GraphOf(g: Graph, buffers: seq<Buffer>, infos: seq<Info>, o: seq<nat>) {
    && |infos| == |o| == |buffers|
    && GraphOver(g, buffers)
    && forall k, j :: 0 <= k < |o| && 0 <= j < |o| ==> EdgeAt(g, buffers, infos, o, k, j)
  }

  lemma InterferenceIsGraphOf(g: Graph, buffers: seq<Buffer>)
    requires DistinctBuffers(buffers) && IsInterference(g, buffers)
    ensures GraphOf(g, buffers, Infos(buffers), Offsets(buffers))
  {
    var infos, o := Infos(buffers), Offsets(buffers);
    forall k, j | 0 <= k < |o| && 0 <= j < |o|
      ensures EdgeAt(g, buffers, infos, o, k, j)
    {
      assert buffers[k] in buffers && buffers[j] in buffers;
      assert buffers[k] == buffers[j] <==> k == j;
    }
  }

  lemma InterferenceIsGraph(g: Graph, buffers: seq<Buffer>)
    requires IsInterference(g, buffers)
    ensures GraphOver(g, buffers) && forall x :: x in buffers ==> x !in Lookup(g, x)
  {
  }

  // No two of the buffers would interfere at these offsets.
  ghost predicate ApartAt(infos: seq<Info>, o: seq<nat>)
    requires |infos| == |o|
  {
    forall k, j :: 0 <= k < |o| && 0 <= j < |o| ==> !Joined(infos, o, k, j)
  }

  lemma NoEdges(g: Graph, buffers: seq<Buffer>)
    requires DistinctBuffers(buffers) && IsInterference(g, buffers) && ApartAt(Infos(buffers), Offsets(buffers))
    ensures g == map[]
  {
    hide Conflict;
    InterferenceIsGraphOf(g, buffers);
    if x :| x in g {
      var y :| y in g[x];
      var p :| 0 <= p < |buffers| && buffers[p] == x;
      var q :| 0 <= q < |buffers| && buffers[q] == y;
      EdgeJoins(g, buffers, Infos(buffers), Offsets(buffers), p, q);
    }
  }

  lemma NoEdgesApart(g: Graph, buffers: seq<Buffer>)
    requires IsInterference(g, buffers) && g == map[]
    ensures Apart(buffers)
  {
    hide Interferes, KeptApart;
    forall x, y | x in buffers && y in buffers && x != y ensures KeptApart(x, y) {
      InterferesIff(x, y);
    }
  }

  lemma EdgeJoins(g: Graph, buffers: seq<Buffer>, infos: seq<Info>, o: seq<nat>, p: nat, q: nat)
    requires GraphOf(g, buffers, infos, o) && p < |o| && q < |o| && buffers[q] in Lookup(g, buffers[p])
    ensures Joined(infos, o, p, q)
  {
    assert EdgeAt(g, buffers, infos, o, p, q);
  }

  // If there is an edge, the first-fit colouring gives some buffer a colour other than 0.
  lemma EdgeIsColoured(g: Graph, buffers: seq<Buffer>, infos: seq<Info>, o: seq<nat>, colors: map<Buffer, int>)
    requires GraphOf(g, buffers, infos, o) && ColoursUpTo(g, buffers, colors, |buffers|) && g != map[]
    ensures exists k :: 0 <= k < |buffers| && colors[buffers[k]] != 0
  {
    var x :| x in g;
    var y :| y in g[x];
    var p :| 0 <= p < |buffers| && buffers[p] == x;
    var q :| 0 <= q < |buffers| && buffers[q] == y;
    assert EdgeAt(g, buffers, infos, o, p, q) && EdgeAt(g, buffers, infos, o, q, p);
    ConflictSymmetric(infos[p], o[p], infos[q], o[q]);
    var e, l := if p < q then p else q, if p < q then q else p;
    assert buffers[e] in Lookup(g, buffers[l]);
    if colors[buffers[e]] == 0 {
      assert HasZeroBefore(g, buffers, colors, l);
    }
  }

  // A coloured buffer is moved past an earlier neighbour.
  lemma MoveIsJustified(g: Graph, buffers: seq<Buffer>, infos: seq<Info>, o: seq<nat>, colors: map<Buffer, int>, k: nat) returns (j: nat)
    requires GraphOf(g, buffers, infos, o) && ColoursUpTo(g, buffers, colors, |buffers|)
    requires k < |buffers| && colors[buffers[k]] != 0
    ensures j < k && buffers[j] in Lookup(g, buffers[k]) && Conflict(infos[k], o[k], infos[j], o[j])
    ensures o[k] < o[j] + infos[j].size
  {
    assert HasZeroBefore(g, buffers, colors, k);
    j :| 0 <= j < k && buffers[j] in Lookup(g, buffers[k]) && colors[buffers[j]] == 0;
    assert EdgeAt(g, buffers, infos, o, k, j);
  }

  /** The state of `allocate` after its first i buffers: those with colour 0 are unmoved, the
      others moved past all their neighbours, the rest untouched. */
  ghost predicate MovedUpTo(buffers: seq<Buffer>, infos: seq<Info>, o: seq<nat>, colors: map<Buffer, int>, i: nat)
    requires |infos| == |o| == |buffers| && i <= |buffers| && Coloured(buffers, colors)
    reads buffers
  {
    && (forall k :: i <= k < |buffers| ==> buffers[k].offset == o[k])
    && forall k :: 0 <= k < i ==> if colors[buffers[k]] == 0 then buffers[k].offset == o[k] else MovedPast(infos, o, Offsets(buffers), k)
  }

  ghost predicate MovedPast(infos: seq<Info>, o: seq<nat>, o': seq<nat>, k: nat)
    requires |infos| == |o| == |o'| && k < |o|
  {
    o[k] < o'[k] && PastAll(infos, o, o', k)
  }

  // Later moves do not change what an earlier one saw.
  lemma MovedPastStays(infos: seq<Info>, o: seq<nat>, p: seq<nat>, q: seq<nat>, k: nat)
    requires |infos| == |o| == |p| == |q| && k < |o| && forall j :: 0 <= j <= k ==> p[j] == q[j]
    requires MovedPast(infos, o, p, k)
    ensures MovedPast(infos, o, q, k)
  {
    hide Joined;
    assert forall j :: 0 <= j < |o| ==> EndSeen(infos, o, p, k, j) == EndSeen(infos, o, q, k, j);
    var j :| 0 <= j < |o| && Joined(infos, o, k, j) && p[k] == AlignTo(EndSeen(infos, o, p, k, j), infos[k].alignment);
    assert q[k] == AlignTo(EndSeen(infos, o, q, k, j), infos[k].alignment);
  }

  lemma MaxEndStep(buffers: seq<Buffer>, i: nat, size: nat, newSize: nat)
    requires i < |buffers| && IsMaxEnd(buffers, i, size)
    requires newSize == if size < buffers[i].End() then buffers[i].End() else size
    ensures IsMaxEnd(buffers, i + 1, newSize)
  {
    if newSize == size && size != 0 && size != buffers[i].End() {
      var k :| 0 <= k < i && buffers[k].End() == size;
      assert buffers[k].End() == newSize;
    } else {
      assert newSize == 0 || buffers[i].End() == newSize;
    }
  }

  // The ends of its neighbours, as buffer i sees them.
  lemma NeighbourEnds(g: Graph, buffers: seq<Buffer>, infos: seq<Info>, o: seq<nat>, colors: map<Buffer, int>, i: nat, end: nat)
    requires GraphOf(g, buffers, infos, o) && infos == Infos(buffers) && Coloured(buffers, colors) && i < |buffers|
    requires MovedUpTo(buffers, infos, o, colors, i)
    requires forall y :: y in Lookup(g, buffers[i]) ==> y.End() <= end
    requires end == 0 || exists y :: y in Lookup(g, buffers[i]) && y.End() == end
    ensures forall j :: 0 <= j < |o| && Joined(infos, o, i, j) ==> EndSeen(infos, o, Offsets(buffers), i, j) <= end
    ensures end == 0 || exists j :: 0 <= j < |o| && Joined(infos, o, i, j) && EndSeen(infos, o, Offsets(buffers), i, j) == end
  {
    forall j | 0 <= j < |o| && Joined(infos, o, i, j) ensures EndSeen(infos, o, Offsets(buffers), i, j) <= end {
      assert EdgeAt(g, buffers, infos, o, i, j);
      assert buffers[j].End() <= end;
    }
    if end != 0 {
      var y :| y in Lookup(g, buffers[i]) && y.End() == end;
      assert y in buffers;
      var j :| 0 <= j < |buffers| && buffers[j] == y;
      assert EdgeAt(g, buffers, infos, o, i, j);
      assert Joined(infos, o, i, j) && EndSeen(infos, o, Offsets(buffers), i, j) == end;
    }
  }

  lemma MoveEnds(infos: seq<Info>, o: seq<nat>, was: seq<nat>, now: seq<nat>, i: nat, end: nat, j: nat)
    requires |infos| == |o| == |was| == |now| && i < |o| && j < |o| && infos[i].alignment > 0
    requires forall k :: 0 <= k < |o| && k != i ==> was[k] == now[k]
    requires forall k :: 0 <= k < |o| && Joined(infos, o, i, k) ==> EndSeen(infos, o, was, i, k) <= end
    requires end == 0 || exists k :: 0 <= k < |o| && Joined(infos, o, i, k) && EndSeen(infos, o, was, i, k) == end
    requires Joined(infos, o, i, j) && 0 < EndSeen(infos, o, was, i, j)
    requires o[i] < EndSeen(infos, o, was, i, j) && now[i] == AlignTo(end, infos[i].alignment)
    ensures MovedPast(infos, o, now, i)
  {
    hide Conflict;
    assert forall k :: 0 <= k < |o| && Joined(infos, o, i, k) ==> EndSeen(infos, o, was, i, k) == EndSeen(infos, o, now, i, k);
    var k :| 0 <= k < |o| && Joined(infos, o, i, k) && EndSeen(infos, o, was, i, k) == end;
    assert EndSeen(infos, o, now, i, k) == end;
  }

  // Moves one buffer past its neighbours, if its colour is not 0.
  method MoveOne(buffers: seq<Buffer>, g: Graph, colors: map<Buffer, int>, i: nat, ghost infos: seq<Info>, ghost o: seq<nat>)
    requires DistinctBuffers(buffers) && i < |buffers| && buffers[i].info.alignment > 0
    requires GraphOf(g, buffers, infos, o) && infos == Infos(buffers) && ColoursUpTo(g, buffers, colors, |buffers|)
    requires MovedUpTo(buffers, infos, o, colors, i)
    modifies buffers[i]
    ensures colors[buffers[i]] == 0 ==> buffers[i].offset == old(buffers[i].offset)
    ensures colors[buffers[i]] != 0 ==> buffers[i].offset % buffers[i].info.alignment == 0 && MovedPast(infos, o, Offsets(buffers), i)
    ensures forall k :: 0 <= k < |buffers| && k != i ==> buffers[k].offset == old(buffers[k].offset)
  {
    hide PastAll, Infos, EdgeAt, HasZeroBefore, Conflict, MovedPast, GraphOver;
    var x := buffers[i];
    var newOffset := MaxEnd(Lookup(g, x));
    if colors[x] != 0 {
      ghost var was := Offsets(buffers);
      NeighbourEnds(g, buffers, infos, o, colors, i, newOffset);
      ghost var j := MoveIsJustified(g, buffers, infos, o, colors, i);
      EarlierEnd(buffers, infos, o, colors, i, j);
      var _ := x.SetOffsetAligned(newOffset);
      assert forall k :: 0 <= k < |buffers| && k != i ==> buffers[k] != x;
      MoveEnds(infos, o, was, Offsets(buffers), i, newOffset, j);
    }
  }

  // An earlier buffer is seen where it was, or further up.
  lemma EarlierEnd(buffers: seq<Buffer>, infos: seq<Info>, o: seq<nat>, colors: map<Buffer, int>, i: nat, j: nat)
    requires |infos| == |o| == |buffers| && j < i < |buffers| && Coloured(buffers, colors) && MovedUpTo(buffers, infos, o, colors, i)
    ensures o[j] + infos[j].size <= EndSeen(infos, o, Offsets(buffers), i, j)
  {
    hide PastAll;
  }

  lemma UsableAligned(i: Info)
    requires Usable(i)
    ensures i.alignment > 0
  {
  }

  lemma MovedStep(buffers: seq<Buffer>, infos: seq<Info>, o: seq<nat>, was: seq<nat>, colors: map<Buffer, int>, i: nat)
    requires |infos| == |o| == |was| == |buffers| && i < |buffers| && Coloured(buffers, colors)
    requires forall k :: 0 <= k < |buffers| && k != i ==> was[k] == buffers[k].offset
    requires forall k :: i < k < |buffers| ==> was[k] == o[k]
    requires forall k :: 0 <= k < i ==> if colors[buffers[k]] == 0 then was[k] == o[k] else MovedPast(infos, o, was, k)
    requires if colors[buffers[i]] == 0 then buffers[i].offset == o[i] else MovedPast(infos, o, Offsets(buffers), i)
    ensures MovedUpTo(buffers, infos, o, colors, i + 1)
  {
    hide MovedPast;
    forall k | 0 <= k < i && colors[buffers[k]] != 0 ensures MovedPast(infos, o, Offsets(buffers), k) {
      MovedPastStays(infos, o, was, Offsets(buffers), k);
    }
  }

  // The body of allocate's second loop.
  method MoveBuffer(buffers: seq<Buffer>, g: Graph, colors: map<Buffer, int>, i: nat, ghost infos: seq<Info>, ghost o: seq<nat>, size: nat)
    returns (newSize: nat)
    requires DistinctBuffers(buffers) && AllUsable(buffers) && AllAligned(buffers) && i < |buffers|
    requires GraphOf(g, buffers, infos, o) && infos == Infos(buffers) && ColoursUpTo(g, buffers, colors, |buffers|)
    requires MovedUpTo(buffers, infos, o, colors, i) && IsMaxEnd(buffers, i, size)
    modifies buffers[i]
    ensures AllAligned(buffers)
    ensures MovedUpTo(buffers, infos, o, colors, i + 1) && IsMaxEnd(buffers, i + 1, newSize)
  {
    hide MovedPast, Infos, Conflict, EdgeAt, HasZeroBefore, GraphOver, ColoursUpTo, Usable;
    var x := buffers[i];
    assert x in buffers;
    ghost var was := Offsets(buffers);
    AllColoured(g, buffers, colors);
    UsableAligned(x.info);
    MoveOne(buffers, g, colors, i, infos, o);
    MovedStep(buffers, infos, o, was, colors, i);
    assert IsMaxEnd(buffers, i, size) by {
      assert forall k :: 0 <= k < i ==> buffers[k].End() == old(buffers[k].End());
    }
    newSize := if size < x.End() then x.End() else size;
    MaxEndStep(buffers, i, size, newSize);
  }

  // allocate's second loop; returns the accumulated shared memory size.
  method MoveBuffers(buffers: seq<Buffer>, g: Graph, colors: map<Buffer, int>, ghost infos: seq<Info>, ghost o: seq<nat>)
    returns (size: nat)
    requires DistinctBuffers(buffers) && AllUsable(buffers) && AllAligned(buffers)
    requires GraphOf(g, buffers, infos, o) && infos == Infos(buffers) && ColoursUpTo(g, buffers, colors, |buffers|)
    requires MovedUpTo(buffers, infos, o, colors, 0)
    modifies buffers
    ensures AllAligned(buffers)
    ensures MovedUpTo(buffers, infos, o, colors, |buffers|) && IsMaxEnd(buffers, |buffers|, size)
  {
    size := 0;
    for i := 0 to |buffers|
      invariant AllAligned(buffers)
      invariant MovedUpTo(buffers, infos, o, colors, i) && IsMaxEnd(buffers, i, size)
    {
      assert buffers[i] in buffers;
      size := MoveBuffer(buffers, g, colors, i, infos, o, size);
    }
  }

  // One pass over all buffers: colour, then move; returns the size of the memory in use.
  method RecolourAndMove(buffers: seq<Buffer>, g: Graph) returns (size: nat)
    requires DistinctBuffers(buffers) && AllUsable(buffers) && AllAligned(buffers) && IsInterference(g, buffers)
    modifies buffers
    ensures AllAligned(buffers) && IsMaxEnd(buffers, |buffers|, size)
    ensures IsPass(Infos(buffers), old(Offsets(buffers)), Offsets(buffers))
    ensures g == map[] <==> Offsets(buffers) == old(Offsets(buffers))
  {
    hide IsInterference, GraphOf, Joined, HasZeroBefore, IsPass, AllUsable, AllAligned, DistinctBuffers, IsMaxEnd;
    ghost var infos, o := Infos(buffers), Offsets(buffers);
    InterferenceIsGraph(g, buffers);
    InterferenceIsGraphOf(g, buffers);
    var colors := ColourBuffers(buffers, g);
    size := MoveBuffers(buffers, g, colors, infos, o);
    PassResult(g, buffers, infos, o, colors);
  }

  lemma PassResult(g: Graph, buffers: seq<Buffer>, infos: seq<Info>, o: seq<nat>, colors: map<Buffer, int>)
    requires GraphOf(g, buffers, infos, o) && ColoursUpTo(g, buffers, colors, |buffers|)
    requires MovedUpTo(buffers, infos, o, colors, |buffers|)
    ensures IsPass(infos, o, Offsets(buffers))
    ensures g == map[] <==> Offsets(buffers) == o
  {
    hide MovedPast, PastAll, EdgeAt, HasZeroBefore, HasFixedBefore;
    var o' := Offsets(buffers);
    forall k | 0 <= k < |o| ensures PassAt(infos, o, o', k) && (colors[buffers[k]] != 0 <==> o'[k] != o[k]) {
      PassAtBuffer(g, buffers, infos, o, colors, k);
    }
    if g != map[] {
      EdgeIsColoured(g, buffers, infos, o, colors);
    } else {
      forall k | 0 <= k < |o| ensures colors[buffers[k]] == 0 {
        NoZeroBefore(g, buffers, colors, k);
      }
    }
  }

  lemma NoZeroBefore(g: Graph, buffers: seq<Buffer>, colors: map<Buffer, int>, k: nat)
    requires g == map[] && Coloured(buffers, colors) && k < |buffers|
    ensures !HasZeroBefore(g, buffers, colors, k)
  {
  }

  lemma PassAtBuffer(g: Graph, buffers: seq<Buffer>, infos: seq<Info>, o: seq<nat>, colors: map<Buffer, int>, k: nat)
    requires GraphOf(g, buffers, infos, o) && ColoursUpTo(g, buffers, colors, |buffers|) && k < |o|
    requires MovedUpTo(buffers, infos, o, colors, |buffers|)
    ensures PassAt(infos, o, Offsets(buffers), k)
    ensures colors[buffers[k]] != 0 <==> Offsets(buffers)[k] != o[k]
  {
    hide PastAll, Conflict;
    var o' := Offsets(buffers);
    if HasZeroBefore(g, buffers, colors, k) {
      var j :| 0 <= j < k && buffers[j] in Lookup(g, buffers[k]) && colors[buffers[j]] == 0;
      assert EdgeAt(g, buffers, infos, o, k, j);
      assert HasFixedBefore(infos, o, o', k);
    }
    if HasFixedBefore(infos, o, o', k) {
      var j :| 0 <= j < k && Joined(infos, o, k, j) && o'[j] == o[j];
      assert EdgeAt(g, buffers, infos, o, k, j);
      assert HasZeroBefore(g, buffers, colors, k);
    }
  }

  // ---------- sharing groups ----------

  /** The largest buffer of a group, the first of them, stands for the group; none if the group
      has no buffer with a size. */
  function Representative(all: seq<Buffer>, group: int): (r: seq<Buffer>)
    ensures |r| <= 1
    ensures forall b :: b in all && b.info.sharingGroup == group ==> b.info.size <= if r == [] then 0 else r[0].info.size
    ensures r != [] ==> r[0] in all && r[0].info.sharingGroup == group
  {
    if |all| == 0 then []
    else
      var last, r := all[|all| - 1], Representative(all[..|all| - 1], group);
      assert all == all[..|all| - 1] + [last];
      if last.info.sharingGroup == group && last.info.size > (if r == [] then 0 else r[0].info.size) then [last] else r
  }

  // A group of buffers without a size has no representative; the source would dereference it.
  ghost predicate GroupsHaveSize(all: seq<Buffer>) {
    forall b :: b in all && b.info.sharingGroup >= 0 ==> Representative(all, b.info.sharingGroup) != []
  }

  predicate IsPlaced(all: seq<Buffer>, b: Buffer) {
    b.info.sharingGroup < 0 || Representative(all, b.info.sharingGroup) == [b]
  }

  // The list of buffers that are placed: those without a group, and the representatives.
  ghost predicate PlacedList(all: seq<Buffer>, placed: seq<Buffer>) {
    && DistinctBuffers(placed)
    && (forall b :: b in placed ==> b in all && IsPlaced(all, b))
    && forall b :: b in all && IsPlaced(all, b) ==> b in placed
  }

  // The placed ones among the first k buffers, in order.
  function PlacedAmong(all: seq<Buffer>, k: nat): seq<Buffer>
    requires k <= |all|
  {
    if k == 0 then []
    else PlacedAmong(all, k - 1) + if IsPlaced(all, all[k - 1]) then [all[k - 1]] else []
  }

  lemma {:induction false} PlacedAmongAre(all: seq<Buffer>, k: nat)
    requires DistinctBuffers(all) && k <= |all|
    ensures DistinctBuffers(PlacedAmong(all, k))
    ensures forall b :: b in PlacedAmong(all, k) <==> b in all[..k] && IsPlaced(all, b)
  {
    hide IsPlaced;
    if k > 0 {
      PlacedAmongAre(all, k - 1);
      assert all[..k] == all[..k - 1] + [all[k - 1]];
      var placed := PlacedAmong(all, k - 1);
      forall i | 0 <= i < |placed| ensures placed[i] != all[k - 1] {
        assert placed[i] in placed;
      }
    }
  }

  method CollectPlaced(all: seq<Buffer>) returns (placed: seq<Buffer>)
    requires DistinctBuffers(all)
    ensures PlacedList(all, placed) && forall i :: 0 <= i < |placed| ==> placed[i] in all
    ensures placed == PlacedAmong(all, |all|)
  {
    hide IsPlaced;
    placed := [];
    for i := 0 to |all|
      invariant placed == PlacedAmong(all, i)
    {
      if IsPlaced(all, all[i]) {
        placed := placed + [all[i]];
      }
    }
    PlacedAmongAre(all, |all|);
    assert all[..|all|] == all;
    assert forall i :: 0 <= i < |placed| ==> placed[i] in placed;
  }

  // The buffer whose memory `b` uses: itself, or its group's representative.
  function HostOf(all: seq<Buffer>, b: Buffer): (h: Buffer)
    requires b in all && (b.info.sharingGroup >= 0 ==> Representative(all, b.info.sharingGroup) != [])
    ensures h in all
  {
    if IsPlaced(all, b) then b else Representative(all, b.info.sharingGroup)[0]
  }

  /** The member's offset lies where the representative's is, up to the member's alignment. */
  ghost predicate AtHost(all: seq<Buffer>, b: Buffer)
    requires b in all && (b.info.sharingGroup >= 0 ==> Representative(all, b.info.sharingGroup) != []) && b.info.alignment > 0
    reads b, HostOf(all, b)
  {
    IsPlaced(all, b) || b.offset == AlignTo(HostOf(all, b).offset, b.info.alignment)
  }

  ghost predicate GroupsCovered(all: seq<Buffer>)
    requires GroupsHaveSize(all)
  {
    forall b :: b in all && !IsPlaced(all, b) ==> Covered(HostOf(all, b).info, b.info)
  }

  // Members follow their representative.
  ghost predicate MembersFollow(all: seq<Buffer>)
    requires AllUsable(all) && GroupsHaveSize(all)
    reads all
  {
    forall b :: b in all ==> AtHost(all, b)
  }

  // Buffers that are not in the same group are kept apart.
  ghost predicate GroupsApart(all: seq<Buffer>)
    reads all
  {
    forall x, y :: x in all && y in all && x != y && !(x.info.sharingGroup >= 0 && x.info.sharingGroup == y.info.sharingGroup)
      ==> KeptApart(x, y)
  }

  ghost predicate AllFit(all: seq<Buffer>, size: nat)
    reads all
  {
    forall b :: b in all ==> b.End() <= size
  }

  // If the buffers do not interfere where placement put them, they stay there.
  ghost predicate KeepsStarts(buffers: seq<Buffer>)
    reads buffers
  {
    && EachUsable(Infos(buffers))
    && (ApartAt(Infos(buffers), Starts(Infos(buffers))) ==> Offsets(buffers) == Starts(Infos(buffers)))
  }

  class AllocationAnalysis {
    var sharedMemorySize: nat

    constructor () {
      sharedMemorySize := 0;
    }

    /** `allocate` */
    method Allocate(buffers: seq<Buffer>, g: Graph)
      requires DistinctBuffers(buffers) && AllUsable(buffers) && AllAligned(buffers) && IsInterference(g, buffers)
      modifies this, buffers
      ensures AllAligned(buffers) && IsMaxEnd(buffers, |buffers|, sharedMemorySize)
      ensures IsPass(Infos(buffers), old(Offsets(buffers)), Offsets(buffers))
      ensures g == map[] <==> Offsets(buffers) == old(Offsets(buffers))
    {
      hide *;
      sharedMemorySize := RecolourAndMove(buffers, g);
    }

    /** The loop of `computeOffsets`: it ends, because every pass but the last lowers the weight,
        and then no two buffers interfere. */
    method Settle(buffers: seq<Buffer>)
      requires DistinctBuffers(buffers) && AllUsable(buffers) && AllAligned(buffers)
      modifies this, buffers
      ensures AllAligned(buffers) && Apart(buffers) && IsMaxEnd(buffers, |buffers|, sharedMemorySize)
      ensures ApartAt(Infos(buffers), old(Offsets(buffers))) ==> Offsets(buffers) == old(Offsets(buffers))
    {
      hide IsInterference, IsMaxEnd, Apart, IsPass, ApartAt, Weight, Offsets, Infos, AllUsable, DistinctBuffers, AllAligned;
      var interference := BuildInterferenceGraph(buffers);
      var first := true;
      while first || interference != map[]
        invariant AllAligned(buffers) && IsInterference(interference, buffers)
        invariant !first ==> IsMaxEnd(buffers, |buffers|, sharedMemorySize)
        invariant ApartAt(Infos(buffers), old(Offsets(buffers))) ==> Offsets(buffers) == old(Offsets(buffers))
        decreases first, Weight(Infos(buffers), Offsets(buffers), 0)
      {
        ghost var o := Offsets(buffers);
        if ApartAt(Infos(buffers), o) {
          NoEdges(interference, buffers);
        }
        Allocate(buffers, interference);
        if interference != map[] {
          BumpLowersWeight(Infos(buffers), o, Offsets(buffers));
        }
        interference := BuildInterferenceGraph(buffers);
        first := false;
      }
      NoEdgesApart(interference, buffers);
    }

    /** `computeOffsets` */
    method ComputeOffsets(all: seq<Buffer>) returns (ghost placed: seq<Buffer>)
      requires DistinctBuffers(all) && AllUsable(all) && GroupsHaveSize(all)
      modifies this, all
      ensures PlacedList(all, placed) && AllAligned(all) && MembersFollow(all)
      ensures Apart(placed) && IsMaxEnd(placed, |placed|, sharedMemorySize)
      ensures GroupsCovered(all) ==> GroupsApart(all) && AllFit(all, sharedMemorySize)
      ensures placed == PlacedAmong(all, |all|) && KeepsStarts(placed)
    {
      hide Apart, GroupsApart, AllFit, GroupsCovered, IsMaxEnd, KeepsStarts, MembersFollow, Representative;
      var buffers := CollectPlaced(all);
      placed := buffers;
      Place(buffers);
      PlaceMembers(all, placed, sharedMemorySize);
    }

    method Place(buffers: seq<Buffer>)
      requires DistinctBuffers(buffers) && AllUsable(buffers)
      modifies this, buffers
      ensures AllAligned(buffers) && Apart(buffers) && IsMaxEnd(buffers, |buffers|, sharedMemorySize)
      ensures KeepsStarts(buffers)
    {
      ghost var placed := CalculateStarts(buffers);
      assert Offsets(buffers) == Starts(Infos(buffers));
      Settle(buffers);
    }
  }

  // The offsets of buffers that are not placed follow their representative.
  method MoveMembers(all: seq<Buffer>)
    requires DistinctBuffers(all) && AllUsable(all) && GroupsHaveSize(all)
    requires forall b :: b in all && IsPlaced(all, b) ==> b.offset % b.info.alignment == 0
    modifies set b | b in all && !IsPlaced(all, b)
    ensures AllAligned(all) && MembersFollow(all)
  {
    for i := 0 to |all|
      invariant forall b :: b in all && IsPlaced(all, b) ==> b.offset == old(b.offset)
      invariant forall k :: 0 <= k < i ==> AtHost(all, all[k]) && all[k].offset % all[k].info.alignment == 0
    {
      var b := all[i];
      if !IsPlaced(all, b) {
        HostIsPlaced(all, b);
        var rep := HostOf(all, b);
        var _ := b.SetOffsetAligned(rep.offset);
      }
    }
  }

  // The loop of `computeOffsets` over the sharing groups.
  method PlaceMembers(all: seq<Buffer>, ghost placed: seq<Buffer>, ghost size: nat)
    requires DistinctBuffers(all) && AllUsable(all) && GroupsHaveSize(all) && PlacedList(all, placed)
    requires AllUsable(placed) && AllAligned(placed) && Apart(placed) && IsMaxEnd(placed, |placed|, size)
    modifies set b | b in all && !IsPlaced(all, b)
    ensures AllAligned(all) && MembersFollow(all)
    ensures Apart(placed) && IsMaxEnd(placed, |placed|, size)
    ensures GroupsCovered(all) ==> GroupsApart(all) && AllFit(all, size)
  {
    hide AtHost, Representative, Covered, Conflict;
    MoveMembers(all);
    if GroupsCovered(all) {
      MembersInherit(all, placed, size);
    }
  }

  lemma MembersInherit(all: seq<Buffer>, buffers: seq<Buffer>, size: nat)
    requires DistinctBuffers(all) && AllUsable(all) && GroupsHaveSize(all) && GroupsCovered(all)
    requires PlacedList(all, buffers) && AllAligned(all) && Apart(buffers) && IsMaxEnd(buffers, |buffers|, size)
    requires MembersFollow(all)
    ensures GroupsApart(all) && AllFit(all, size)
  {
    hide DistinctBuffers, AllUsable, GroupsHaveSize, GroupsCovered, PlacedList, AllAligned, Apart, IsMaxEnd, Conflict, AtHost;
    forall x, y | x in all && y in all && x != y && !(x.info.sharingGroup >= 0 && x.info.sharingGroup == y.info.sharingGroup)
      ensures KeptApart(x, y)
    {
      HostsApart(all, buffers, x, y);
    }
    forall b | b in all ensures b.End() <= size {
      MemberFits(all, buffers, size, b);
    }
  }

  lemma MemberFits(all: seq<Buffer>, buffers: seq<Buffer>, size: nat, b: Buffer)
    requires AllUsable(all) && GroupsHaveSize(all) && GroupsCovered(all) && MembersFollow(all) && b in all
    requires PlacedList(all, buffers) && AllAligned(all) && IsMaxEnd(buffers, |buffers|, size)
    ensures b.End() <= size
  {
    hide Covered, Representative, IsPlaced;
    assert AtHost(all, b);
    HostIsPlaced(all, b);
    var k :| 0 <= k < |buffers| && buffers[k] == HostOf(all, b);
    OffsetAtHost(all, b);
  }

  lemma HostIsPlaced(all: seq<Buffer>, b: Buffer)
    requires GroupsHaveSize(all) && b in all
    ensures IsPlaced(all, HostOf(all, b))
    ensures !IsPlaced(all, b) ==> HostOf(all, b).info.sharingGroup == b.info.sharingGroup >= 0
  {
    assert all[..|all|] == all;
    if !IsPlaced(all, b) {
      var r := Representative(all, b.info.sharingGroup);
      assert r == [r[0]];
    }
  }

  lemma OffsetAtHost(all: seq<Buffer>, b: Buffer)
    requires AllUsable(all) && GroupsHaveSize(all) && GroupsCovered(all) && AllAligned(all) && b in all && AtHost(all, b)
    ensures b.offset == AlignTo(HostOf(all, b).offset, b.info.alignment)
    ensures Covered(HostOf(all, b).info, b.info) && b.End() <= HostOf(all, b).End()
  {
    var h := HostOf(all, b);
    assert h in all;
    if IsPlaced(all, b) {
      CoversItself(b.info);
    }
    CoveredMemberFits(h.info, b.info, h.offset);
  }

  lemma HostsApart(all: seq<Buffer>, buffers: seq<Buffer>, x: Buffer, y: Buffer)
    requires DistinctBuffers(all) && AllUsable(all) && GroupsHaveSize(all) && GroupsCovered(all)
    requires PlacedList(all, buffers) && AllAligned(all) && Apart(buffers)
    requires x in all && y in all && x != y && AtHost(all, x) && AtHost(all, y)
    requires !(x.info.sharingGroup >= 0 && x.info.sharingGroup == y.info.sharingGroup)
    ensures KeptApart(x, y)
  {
    HostIsPlaced(all, x);
    HostIsPlaced(all, y);
    var hx, hy := HostOf(all, x), HostOf(all, y);
    hide AtHost, KeptApart, Interferes, AllUsable, GroupsHaveSize, GroupsCovered, Representative, AllAligned;
    assert hx != hy && KeptApart(hx, hy);
    InterferesIff(hx, hy);
    MembersClear(all, x, y);
    InterferesIff(x, y);
  }

  // Members of different groups interfere only if their hosts do.
  lemma MembersClear(all: seq<Buffer>, x: Buffer, y: Buffer)
    requires AllUsable(all) && GroupsHaveSize(all) && GroupsCovered(all) && AllAligned(all)
    requires x in all && y in all && AtHost(all, x) && AtHost(all, y)
    requires HostOf(all, x) != HostOf(all, y) && !Interferes(HostOf(all, x), HostOf(all, y))
    ensures !Interferes(x, y)
  {
    var hx, hy := HostOf(all, x), HostOf(all, y);
    hide Conflict, Covered, Representative, HostOf;
    OffsetAtHost(all, x);
    OffsetAtHost(all, y);
    if Conflict(x.info, x.offset, y.info, y.offset) {
      CoveredMemberIsSafe(hx.info, x.info, y.info, hx.offset, y.offset);
      ConflictSymmetric(hx.info, hx.offset, y.info, y.offset);
      CoveredMemberIsSafe(hy.info, y.info, hx.info, hy.offset, hx.offset);
      ConflictSymmetric(hx.info, hx.offset, hy.info, hy.offset);
    }
  }
}
