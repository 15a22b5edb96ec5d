/** AllocationAnalysis::calculateStarts (lib/Analysis/Allocation.cpp:579-637). */
module Placement {
  import opened Intervals

  /** What is known of a buffer before placement: its size, alignment, live range, regions and
      sharing group (negative if it is not shared). */
  datatype Info = Info(size: nat, alignment: nat, live: Interval, regionIds: set<int>, sharingGroup: int)

  // The live ranges that liveness analysis produces: at least one operation, below the top.
  predicate Usable(i: Info) {
    i.alignment > 0 && i.live.NonEmpty() && i.live.end <= MAX
  }

  class Buffer {
    const info: Info
    var offset: nat

    constructor (info: Info)
      ensures this.info == info && offset == 0
    {
      this.info := info;
      offset := 0;
    }

    // One past the last byte.
    function End(): nat
      reads this
    {
      offset + info.size
    }

    method SetOffsetAligned(newOffset: nat) returns (r: nat)
      requires info.alignment > 0
      modifies this`offset
      ensures offset == AlignTo(newOffset, info.alignment) && r == offset
    {
      offset := AlignTo(newOffset, info.alignment);
      r := offset;
    }
  }

  ghost predicate DistinctBuffers(buffers: seq<Buffer>) {
    forall i, j :: 0 <= i < j < |buffers| ==> buffers[i] != buffers[j]
  }

  ghost predicate AllUsable(buffers: seq<Buffer>) {
    forall b :: b in buffers ==> Usable(b.info)
  }

  // What is known of each buffer.
  function Infos(buffers: seq<Buffer>): (s: seq<Info>)
    ensures |s| == |buffers| && forall i :: 0 <= i < |s| ==> s[i] == buffers[i].info
  {
    seq(|buffers|, i requires 0 <= i < |buffers| => buffers[i].info)
  }

  ghost predicate EachUsable(infos: seq<Info>) {
    forall i :: 0 <= i < |infos| ==> Usable(infos[i])
  }

  ghost predicate AllAligned(buffers: seq<Buffer>)
    requires AllUsable(buffers)
    reads buffers
  {
    forall b :: b in buffers ==> b.offset % b.info.alignment == 0
  }

  // ---------- the multimap of free triples ----------

  /** A start offset with the live range in which memory from there on is free. */
  datatype Triple = Triple(offset: nat, range: Interval)

  // std::multimap: ordered by key, equal keys in insertion order.
  ghost predicate Ordered(m: seq<Triple>) {
    forall i, j :: 0 <= i < j < |m| ==> m[i].offset <= m[j].offset
  }

  function Insert(m: seq<Triple>, t: Triple): (r: seq<Triple>)
    ensures |r| == |m| + 1
  {
    if |m| == 0 then [t]
    else if t.offset < m[0].offset then [t] + m
    else [m[0]] + Insert(m[1..], t)
  }

  lemma {:induction false} InsertMembers(m: seq<Triple>, t: Triple)
    ensures forall u :: u in Insert(m, t) <==> u in m || u == t
    ensures multiset(Insert(m, t)) == multiset(m) + multiset{t}
  {
    if |m| > 0 && !(t.offset < m[0].offset) {
      InsertMembers(m[1..], t);
      assert m == [m[0]] + m[1..];
    }
  }

  lemma {:induction false} InsertOrdered(m: seq<Triple>, t: Triple)
    requires Ordered(m)
    ensures Ordered(Insert(m, t))
  {
    if |m| > 0 {
      hide Ordered;
      OrderedTail(m);
      if t.offset < m[0].offset {
        OrderedCons(t, m);
      } else {
        InsertOrdered(m[1..], t);
        InsertMembers(m[1..], t);
        OrderedCons(m[0], Insert(m[1..], t));
      }
    }
  }

  lemma OrderedTail(m: seq<Triple>)
    requires Ordered(m) && |m| > 0
    ensures Ordered(m[1..]) && forall u :: u in m ==> m[0].offset <= u.offset
  {
    assert forall i :: 0 <= i < |m| - 1 ==> m[1..][i] == m[i + 1];
  }

  lemma OrderedCons(t: Triple, m: seq<Triple>)
    requires Ordered(m) && forall u :: u in m ==> t.offset <= u.offset
    ensures Ordered([t] + m)
  {
    assert forall i :: 0 <= i < |m| ==> m[i] in m;
  }

  ghost predicate RangesNonEmpty(m: seq<Triple>) {
    forall t :: t in m ==> t.range.NonEmpty()
  }

  // Some free triple meets the live range.
  ghost predicate Met(m: seq<Triple>, live: Interval) {
    exists t :: t in m && t.range.Intersects(live)
  }

  // The buffer meets the popped range and no other triple.
  predicate Fits(x: Interval, range: Interval, rest: seq<Triple>) {
    x.Intersects(range) && forall i :: 0 <= i < |rest| ==> !rest[i].range.Intersects(x)
  }

  // What placing a buffer live during `x` leaves of `range`: above the buffer, before it, after it.
  function Above(range: Interval, x: Interval): Interval {
    Interval(if range.start < x.start then x.start else range.start, if x.end < range.end then x.end else range.end)
  }

  function Before(range: Interval, x: Interval): Interval {
    Interval(range.start, x.end)
  }

  function After(range: Interval, x: Interval): Interval {
    Interval(x.start, range.end)
  }

  function Split(rest: seq<Triple>, offset: nat, range: Interval, x: Interval, top: nat): (m: seq<Triple>)
  {
    var m1 := Insert(rest, Triple(top, Above(range, x)));
    var m2 := if range.start < x.start then Insert(m1, Triple(offset, Before(range, x))) else m1;
    if x.end < range.end then Insert(m2, Triple(offset, After(range, x))) else m2
  }

  lemma SplitMembers(rest: seq<Triple>, offset: nat, range: Interval, x: Interval, top: nat)
    ensures forall u :: u in Split(rest, offset, range, x, top) <==>
              u in rest || u == Triple(top, Above(range, x))
              || (range.start < x.start && u == Triple(offset, Before(range, x)))
              || (x.end < range.end && u == Triple(offset, After(range, x)))
  {
    hide Insert, Above, Before, After;
    var m1 := Insert(rest, Triple(top, Above(range, x)));
    var m2 := if range.start < x.start then Insert(m1, Triple(offset, Before(range, x))) else m1;
    InsertMembers(rest, Triple(top, Above(range, x)));
    InsertMembers(m1, Triple(offset, Before(range, x)));
    InsertMembers(m2, Triple(offset, After(range, x)));
  }

  lemma SplitOrdered(rest: seq<Triple>, offset: nat, range: Interval, x: Interval, top: nat)
    requires Ordered(rest)
    ensures Ordered(Split(rest, offset, range, x, top))
  {
    hide Ordered, Insert;
    var m1 := Insert(rest, Triple(top, Above(range, x)));
    var m2 := if range.start < x.start then Insert(m1, Triple(offset, Before(range, x))) else m1;
    InsertOrdered(rest, Triple(top, Above(range, x)));
    InsertOrdered(m1, Triple(offset, Before(range, x)));
    InsertOrdered(m2, Triple(offset, After(range, x)));
  }

  lemma SplitNonEmpty(rest: seq<Triple>, offset: nat, range: Interval, x: Interval, top: nat)
    requires RangesNonEmpty(rest) && range.NonEmpty() && x.NonEmpty() && x.Intersects(range)
    ensures RangesNonEmpty(Split(rest, offset, range, x, top))
  {
    hide Split;
    SplitMembers(rest, offset, range, x, top);
  }

  /** The three parts cover the popped range, so whoever met it still meets a triple. */
  lemma SplitKeepsMet(t: Triple, rest: seq<Triple>, x: Interval, top: nat, y: Interval)
    requires t.range.NonEmpty() && x.NonEmpty() && y.NonEmpty() && x.Intersects(t.range)
    requires Met([t] + rest, y)
    ensures Met(Split(rest, t.offset, t.range, x, top), y)
  {
    var range, m := t.range, Split(rest, t.offset, t.range, x, top);
    SplitMembers(rest, t.offset, range, x, top);
    var u :| u in [t] + rest && u.range.Intersects(y);
    if u in rest {
      assert u in m;
    } else {
      var p := if y.start < range.start then range.start else y.start;
      if p < x.start {
        assert Triple(t.offset, Before(range, x)) in m;
        assert Triple(t.offset, Before(range, x)).range.Intersects(y);
      } else if p >= x.end {
        assert Triple(t.offset, After(range, x)) in m;
        assert Triple(t.offset, After(range, x)).range.Intersects(y);
      } else {
        assert Triple(top, Above(range, x)) in m;
        assert Triple(top, Above(range, x)).range.Intersects(y);
      }
    }
  }

  /** A triple no unplaced buffer fits into can be dropped: whoever met it meets another one. */
  lemma DropKeepsMet(t: Triple, rest: seq<Triple>, y: Interval)
    requires Met([t] + rest, y) && !Fits(y, t.range, rest)
    ensures Met(rest, y)
  {
    var u :| u in [t] + rest && u.range.Intersects(y);
    if u !in rest {
      var i :| 0 <= i < |rest| && rest[i].range.Intersects(y);
      assert rest[i] in rest;
    }
  }

  // ---------- calculateStarts ----------

  // Index of the first unplaced buffer that fits, or the number of them.
  function FirstFit(xs: seq<Info>, range: Interval, rest: seq<Triple>): (i: nat)
    ensures i <= |xs|
    ensures i < |xs| ==> Fits(xs[i].live, range, rest)
    ensures i == |xs| ==> forall k :: 0 <= k < |xs| ==> !Fits(xs[k].live, range, rest)
  {
    if |xs| == 0 then 0
    else if Fits(xs[0].live, range, rest) then 0
    else 1 + FirstFit(xs[1..], range, rest)
  }

  ghost predicate AllMet(m: seq<Triple>, xs: seq<Info>) {
    forall i :: 0 <= i < |xs| ==> Met(m, xs[i].live)
  }

  // The triples are in order, none is empty, and every unplaced buffer meets one.
  ghost predicate MapOk(m: seq<Triple>, xs: seq<Info>) {
    Ordered(m) && RangesNonEmpty(m) && AllMet(m, xs)
  }

  function RemoveAt<T>(xs: seq<T>, i: nat): (r: seq<T>)
    requires i < |xs|
    ensures |r| == |xs| - 1
    ensures forall k :: 0 <= k < |r| ==> r[k] == if k < i then xs[k] else xs[k + 1]
  {
    xs[..i] + xs[i + 1..]
  }

  lemma TailOk(t: Triple, rest: seq<Triple>)
    requires Ordered([t] + rest) && RangesNonEmpty([t] + rest)
    ensures Ordered(rest) && RangesNonEmpty(rest) && t.range.NonEmpty()
  {
    var m := [t] + rest;
    assert t == m[0];
    forall j | 0 <= j < |rest| ensures rest[j] == m[j + 1] {
    }
    assert forall u :: u in rest ==> u in m;
  }

  lemma PlaceMap(t: Triple, rest: seq<Triple>, xs: seq<Info>, i: nat, top: nat)
    requires MapOk([t] + rest, xs) && i < |xs| && EachUsable(xs)
    requires Fits(xs[i].live, t.range, rest)
    ensures MapOk(Split(rest, t.offset, t.range, xs[i].live, top), RemoveAt(xs, i))
    ensures EachUsable(RemoveAt(xs, i))
  {
    hide Split, Met, Ordered, RangesNonEmpty;
    TailOk(t, rest);
    SplitOrdered(rest, t.offset, t.range, xs[i].live, top);
    SplitNonEmpty(rest, t.offset, t.range, xs[i].live, top);
    var left := RemoveAt(xs, i);
    forall k | 0 <= k < |left| ensures Met(Split(rest, t.offset, t.range, xs[i].live, top), left[k].live) && Usable(left[k]) {
      SplitKeepsMet(t, rest, xs[i].live, top, left[k].live);
    }
  }

  lemma DropMap(t: Triple, rest: seq<Triple>, xs: seq<Info>)
    requires MapOk([t] + rest, xs)
    requires forall k :: 0 <= k < |xs| ==> !Fits(xs[k].live, t.range, rest)
    ensures MapOk(rest, xs)
  {
    hide Met, Ordered, RangesNonEmpty, Fits;
    TailOk(t, rest);
    forall k | 0 <= k < |xs| ensures Met(rest, xs[k].live) {
      DropKeepsMet(t, rest, xs[k].live);
    }
  }

  // Some triple is left as long as some buffer is.
  lemma MapNotEmpty(m: seq<Triple>, xs: seq<Info>)
    requires MapOk(m, xs) && xs != []
    ensures m != [] && m == [m[0]] + m[1..]
  {
    assert Met(m, xs[0].live);
  }

  const WHOLE := [Triple(0, Interval(0, MAX))]

  lemma StartMap(xs: seq<Info>)
    requires EachUsable(xs)
    ensures MapOk(WHOLE, xs)
  {
    assert WHOLE[0] in WHOLE;
  }

  /** The offsets that the unplaced buffers get, in their order. */
  ghost function Place(m: seq<Triple>, xs: seq<Info>): (r: seq<nat>)
    requires MapOk(m, xs) && EachUsable(xs)
    ensures |r| == |xs|
    decreases |xs|, |m|
  {
    hide MapOk, Split, FirstFit, Fits;
    if xs == [] then []
    else
      MapNotEmpty(m, xs);
      var t, rest := m[0], m[1..];
      var i := FirstFit(xs, t.range, rest);
      if i < |xs| then
        var o := AlignTo(t.offset, xs[i].alignment);
        PlaceMap(t, rest, xs, i, o + xs[i].size);
        var others := Place(Split(rest, t.offset, t.range, xs[i].live, o + xs[i].size), RemoveAt(xs, i));
        others[..i] + [o] + others[i..]
      else
        DropMap(t, rest, xs);
        Place(rest, xs)
  }

  ghost function Starts(infos: seq<Info>): (r: seq<nat>)
    requires EachUsable(infos)
    ensures |r| == |infos|
  {
    StartMap(infos);
    Place(WHOLE, infos)
  }

  // Placed and unplaced buffers together are all buffers.
  ghost predicate Shared(buffers: seq<Buffer>, xs: seq<Buffer>, placed: seq<Buffer>) {
    && multiset(placed) + multiset(xs) == multiset(buffers)
    && (forall b :: b in xs ==> b in buffers)
    && (forall b :: b in placed ==> b in buffers && b !in xs)
    && DistinctBuffers(xs)
  }

  lemma PlaceShared(buffers: seq<Buffer>, xs: seq<Buffer>, placed: seq<Buffer>, i: nat)
    requires Shared(buffers, xs, placed) && i < |xs|
    ensures Shared(buffers, RemoveAt(xs, i), placed + [xs[i]])
  {
    var left := RemoveAt(xs, i);
    RemovedOnce(xs, i);
    assert multiset(placed + [xs[i]]) == multiset(placed) + multiset{xs[i]};
    forall b | b in placed + [xs[i]] ensures b in buffers && b !in left {
      assert b in placed || b == xs[i];
      assert xs[i] in xs;
    }
  }

  lemma RemovedOnce(xs: seq<Buffer>, i: nat)
    requires i < |xs| && DistinctBuffers(xs)
    ensures multiset(xs) == multiset(RemoveAt(xs, i)) + multiset{xs[i]} && DistinctBuffers(RemoveAt(xs, i))
    ensures forall b :: b in RemoveAt(xs, i) ==> b in xs && b != xs[i]
  {
    assert xs == xs[..i] + [xs[i]] + xs[i + 1..];
  }

  lemma InfosLeft(xs: seq<Buffer>, i: nat)
    requires i < |xs|
    ensures Infos(RemoveAt(xs, i)) == RemoveAt(Infos(xs), i)
  {
  }

  // The placed buffers are where `want` says, and the others will be.
  ghost predicate OnCourse(buffers: seq<Buffer>, xs: seq<Buffer>, want: seq<nat>, left: seq<nat>)
    reads buffers
  {
    && |want| == |buffers| && |left| == |xs|
    && (forall k, j :: 0 <= k < |buffers| && 0 <= j < |xs| && buffers[k] == xs[j] ==> want[k] == left[j])
    && forall k :: 0 <= k < |buffers| && buffers[k] !in xs ==> buffers[k].offset == want[k]
  }

  /** Gives every buffer an aligned offset exactly once (`placed` lists them in the order of
      placement).  The map of triples is never empty when its first element is taken. */
  method CalculateStarts(buffers: seq<Buffer>) returns (ghost placed: seq<Buffer>)
    requires DistinctBuffers(buffers) && AllUsable(buffers)
    modifies buffers
    ensures AllAligned(buffers)
    ensures multiset(placed) == multiset(buffers)
    ensures EachUsable(Infos(buffers)) && forall k :: 0 <= k < |buffers| ==> buffers[k].offset == Starts(Infos(buffers))[k]
  {
    hide Usable, MapOk, Split, FirstFit;
    assert forall k :: 0 <= k < |buffers| ==> buffers[k] in buffers;
    var tripleMap := WHOLE;
    var xBuffers: seq<Buffer> := buffers;
    placed := [];
    StartMap(Infos(buffers));
    ghost var want := Starts(Infos(buffers));
    while xBuffers != []
      invariant Shared(buffers, xBuffers, placed) && EachUsable(Infos(xBuffers)) && MapOk(tripleMap, Infos(xBuffers))
      invariant OnCourse(buffers, xBuffers, want, Place(tripleMap, Infos(xBuffers)))
      invariant forall b :: b in placed ==> b.info.alignment > 0 && b.offset % b.info.alignment == 0
      decreases |xBuffers|, |tripleMap|
    {
      MapNotEmpty(tripleMap, Infos(xBuffers));
      var t, rest := tripleMap[0], tripleMap[1..];
      var i := FirstFit(Infos(xBuffers), t.range, rest);
      if i < |xBuffers| {
        var buffer := xBuffers[i];
        assert buffer in xBuffers;
        assert Usable(Infos(xBuffers)[i]);
        tripleMap, xBuffers, placed := PlaceOne(buffers, t, rest, xBuffers, i, placed, want);
      } else {
        DropMap(t, rest, Infos(xBuffers));
        tripleMap := rest;
      }
    }
    forall b | b in buffers ensures b.info.alignment > 0 && b.offset % b.info.alignment == 0 {
      assert b in multiset(buffers);
      assert b in placed;
    }
  }

  // The buffer that fits is placed, and its triple split.
  method PlaceOne(buffers: seq<Buffer>, t: Triple, rest: seq<Triple>, xs: seq<Buffer>, i: nat, ghost placed0: seq<Buffer>, ghost want: seq<nat>)
    returns (m: seq<Triple>, left: seq<Buffer>, ghost placed: seq<Buffer>)
    requires i < |xs| && xs[i] in buffers && xs[i].info.alignment > 0 && Shared(buffers, xs, placed0)
    requires EachUsable(Infos(xs)) && MapOk([t] + rest, Infos(xs)) && i == FirstFit(Infos(xs), t.range, rest)
    requires OnCourse(buffers, xs, want, Place([t] + rest, Infos(xs)))
    requires forall b :: b in placed0 ==> b.info.alignment > 0 && b.offset % b.info.alignment == 0
    modifies xs[i]
    ensures |left| < |xs| && Shared(buffers, left, placed) && EachUsable(Infos(left)) && MapOk(m, Infos(left))
    ensures OnCourse(buffers, left, want, Place(m, Infos(left)))
    ensures forall b :: b in placed ==> b.info.alignment > 0 && b.offset % b.info.alignment == 0
  {
    hide Usable, MapOk, Split, FirstFit;
    var buffer := xs[i];
    assert ([t] + rest)[0] == t && ([t] + rest)[1..] == rest;
    var alignOffset := buffer.SetOffsetAligned(t.offset);
    PlaceShared(buffers, xs, placed0, i);
    InfosLeft(xs, i);
    PlaceMap(t, rest, Infos(xs), i, alignOffset + buffer.info.size);
    m := Split(rest, t.offset, t.range, buffer.info.live, alignOffset + buffer.info.size);
    placed := placed0 + [buffer];
    left := RemoveAt(xs, i);
    PlacedOnCourse(buffers, xs, i, want, Place(m, Infos(left)));
  }

  lemma StaysIn(xs: seq<Buffer>, i: nat, b: Buffer)
    requires i < |xs| && b in xs
    ensures b == xs[i] || b in RemoveAt(xs, i)
  {
    var j :| 0 <= j < |xs| && xs[j] == b;
    assert j != i ==> RemoveAt(xs, i)[if j < i then j else j - 1] == b;
  }

  lemma PlacedOnCourse(buffers: seq<Buffer>, xs: seq<Buffer>, i: nat, want: seq<nat>, others: seq<nat>)
    requires i < |xs| && |others| == |xs| - 1 && DistinctBuffers(xs) && |want| == |buffers|
    requires forall k, j :: 0 <= k < |buffers| && 0 <= j < |xs| && buffers[k] == xs[j] ==> want[k] == (others[..i] + [xs[i].offset] + others[i..])[j]
    requires forall k :: 0 <= k < |buffers| && buffers[k] !in xs ==> buffers[k].offset == want[k]
    ensures OnCourse(buffers, RemoveAt(xs, i), want, others)
  {
    var left := RemoveAt(xs, i);
    forall k, j | 0 <= k < |buffers| && 0 <= j < |left| && buffers[k] == left[j] ensures want[k] == others[j] {
      var jj := if j < i then j else j + 1;
      assert buffers[k] == xs[jj];
    }
    forall k | 0 <= k < |buffers| && buffers[k] !in left ensures buffers[k].offset == want[k] {
      if buffers[k] in xs {
        StaysIn(xs, i, buffers[k]);
      }
    }
  }
}
