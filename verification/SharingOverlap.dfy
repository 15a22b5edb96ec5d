/** What AllocationAnalysis::computeOffsets makes of a sharing group whose largest buffer is not
live whenever another member is (lib/Analysis/Allocation.cpp:532-575). */
module SharingOverlap {
  import opened Intervals
  import opened Placement
  import opened Coloring
  import opened Sharing
  import opened AllocationAnalysis

  // A buffer after the first one leaves of the whole range.
  lemma SplitWhole(r: Info)
    requires Usable(r) && r.size > 0
    ensures var m := Split([], 0, Interval(0, MAX), r.live, r.size);
            var before, after, above := Triple(0, Before(Interval(0, MAX), r.live)), Triple(0, After(Interval(0, MAX), r.live)), Triple(r.size, r.live);
            m == (if 0 < r.live.start then [before] else []) + (if r.live.end < MAX then [after] else []) + [above]
  {
    var whole := Interval(0, MAX);
    var before, after, above := Triple(0, Before(whole, r.live)), Triple(0, After(whole, r.live)), Triple(r.size, r.live);
    assert Above(whole, r.live) == r.live;
    assert Insert([], above) == [above];
    assert Insert([above], before) == [before] + [above] && Insert([above], after) == [after] + [above];
    assert ([before] + [above])[1..] == [above];
    assert Insert([before] + [above], after) == [before] + ([after] + [above]);
  }

  // The first buffer fits into the first triple.
  lemma PlaceHead(t: Triple, rest: seq<Triple>, x: Info, xs: seq<Info>)
    requires MapOk([t] + rest, [x] + xs) && EachUsable([x] + xs) && Usable(x) && Fits(x.live, t.range, rest)
    ensures var o := AlignTo(t.offset, x.alignment);
            var m := Split(rest, t.offset, t.range, x.live, o + x.size);
            && EachUsable(xs) && MapOk(m, xs)
            && Place([t] + rest, [x] + xs) == [o] + Place(m, xs)
  {
    hide MapOk, Split, Fits, AlignTo, Place, EachUsable;
    var m, all := [t] + rest, [x] + xs;
    HeadTail(t, rest);
    HeadTail(x, xs);
    assert FirstFit(all, t.range, rest) == 0;
    assert RemoveAt(all, 0) == xs;
    PlaceFitting(m, all);
  }

  lemma HeadTail<T>(x: T, xs: seq<T>)
    ensures ([x] + xs)[0] == x && ([x] + xs)[1..] == xs
  {
  }

  lemma PlaceFitting(m: seq<Triple>, xs: seq<Info>)
    requires MapOk(m, xs) && EachUsable(xs) && xs != [] && m != [] && Usable(xs[0]) && FirstFit(xs, m[0].range, m[1..]) == 0
    ensures var o := AlignTo(m[0].offset, xs[0].alignment);
            var left := Split(m[1..], m[0].offset, m[0].range, xs[0].live, o + xs[0].size);
            && EachUsable(RemoveAt(xs, 0)) && MapOk(left, RemoveAt(xs, 0))
            && Place(m, xs) == [o] + Place(left, RemoveAt(xs, 0))
  {
    hide MapOk, Split, Fits, AlignTo, EachUsable, FirstFit, RemoveAt;
    var o := AlignTo(m[0].offset, xs[0].alignment);
    assert m == [m[0]] + m[1..];
    PlaceMap(m[0], m[1..], xs, 0, o + xs[0].size);
    var others := Place(Split(m[1..], m[0].offset, m[0].range, xs[0].live, o + xs[0].size), RemoveAt(xs, 0));
    assert others[..0] + [o] + others[0..] == [o] + others;
  }

  lemma PlaceNone(m: seq<Triple>)
    requires MapOk(m, [])
    ensures EachUsable([]) && Place(m, []) == []
  {
  }

  lemma PlaceLast(t: Triple, rest: seq<Triple>, y: Info)
    requires MapOk([t] + rest, [y]) && EachUsable([y]) && Usable(y) && Fits(y.live, t.range, rest)
    ensures Place([t] + rest, [y]) == [AlignTo(t.offset, y.alignment)]
  {
    hide Place, MapOk, Fits, Split;
    assert [y] == [y] + [];
    var o := AlignTo(t.offset, y.alignment);
    PlaceHead(t, rest, y, []);
    PlaceNone(Split(rest, t.offset, t.range, y.live, o + y.size));
  }

  // No buffer fits into the first triple.
  lemma DropUseless(t: Triple, rest: seq<Triple>, xs: seq<Info>)
    requires MapOk([t] + rest, xs) && EachUsable(xs) && xs != [] && MapOk(rest, xs)
    requires FirstFit(xs, t.range, rest) == |xs|
    ensures Place([t] + rest, xs) == Place(rest, xs)
  {
    hide MapOk;
    var m := [t] + rest;
    assert m[0] == t && m[1..] == rest;
  }

  lemma PlaceRest(r: Info, y: Info)
    requires Usable(r) && r.size > 0 && Usable(y) && !y.live.Intersects(r.live)
    requires MapOk(Split([], 0, Interval(0, MAX), r.live, r.size), [y])
    ensures Place(Split([], 0, Interval(0, MAX), r.live, r.size), [y]) == [0]
  {
    hide Place, MapOk, Split;
    var whole := Interval(0, MAX);
    var before, after, above := Triple(0, Before(whole, r.live)), Triple(0, After(whole, r.live)), Triple(r.size, r.live);
    var m := Split([], 0, whole, r.live, r.size);
    SplitWhole(r);
    if y.live.end <= r.live.start {
      var rest := (if r.live.end < MAX then [after] else []) + [above];
      assert m == [before] + rest;
      PlaceLast(before, rest, y);
    } else {
      assert r.live.end <= y.live.start && r.live.end < MAX;
      if 0 < r.live.start {
        assert m == [before] + ([after] + [above]);
        DropMap(before, [after] + [above], [y]);
        DropUseless(before, [after] + [above], [y]);
      } else {
        assert m == [after] + [above];
      }
      PlaceLast(after, [above], y);
    }
  }

  // The first buffer goes to the bottom.
  lemma PlaceFirst(low: Info, rest: seq<Info>)
    requires EachUsable([low] + rest) && EachUsable(rest) && Usable(low)
    ensures MapOk(Split([], 0, Interval(0, MAX), low.live, low.size), rest)
    ensures Starts([low] + rest) == [0] + Place(Split([], 0, Interval(0, MAX), low.live, low.size), rest)
  {
    hide MapOk, Split, Place;
    var whole := Triple(0, Interval(0, MAX));
    StartMap([low] + rest);
    assert WHOLE == [whole] == [whole] + [];
    assert AlignTo(0, low.alignment) == 0;
    PlaceHead(whole, [], low, rest);
  }

  /** Placement starts two buffers that are live at different times at the same offset. */
  lemma StartsTogether(r: Info, y: Info)
    requires Usable(r) && r.size > 0 && Usable(y) && !y.live.Intersects(r.live)
    ensures EachUsable([r, y]) && Starts([r, y]) == [0, 0]
  {
    hide MapOk, Split, Place;
    assert [r, y] == [r] + [y];
    PlaceFirst(r, [y]);
    PlaceRest(r, y);
  }

  /** Two buffers start together exactly if they are live at different times; otherwise the second
      starts at the first aligned offset past the first. */
  lemma StartsOfTwo(r: Info, y: Info)
    requires Usable(r) && r.size > 0 && Usable(y)
    ensures EachUsable([r, y])
    ensures Starts([r, y]) == [0, if y.live.start < r.live.end && r.live.start < y.live.end then AlignTo(r.size, y.alignment) else 0]
  {
    hide MapOk, Split, Place, AlignTo;
    if y.live.Intersects(r.live) {
      assert [r, y] == [r] + [y];
      PlaceFirst(r, [y]);
      PlaceAbove(r, [y]);
      assert [Triple(r.size, r.live)] == [Triple(r.size, r.live)] + [];
      PlaceLast(Triple(r.size, r.live), [], y);
    } else {
      StartsTogether(r, y);
    }
  }

  /** What is free above a buffer is free while it and the buffer below it are live: three buffers, of
      which the last is live with the first but not with the second, start at 0, size and size. */
  lemma StartsOfThree(size: nat, a: Info, b: Info, c: Info)
    requires size > 0 && a == Info(size, 1, Interval(2, 4), {}, -1)
    requires b == Info(size, 1, Interval(3, 6), {}, -1) && c == Info(size, 1, Interval(2, 3), {}, -1)
    ensures EachUsable([a, b, c]) && Starts([a, b, c]) == [0, size, size]
  {
    hide MapOk, Split, Place;
    var rest := [b, c];
    assert [a, b, c] == [a] + rest && rest == [b] + [c];
    PlaceFirst(a, rest);
    PlaceAbove(a, rest);
    var t := Triple(size, Interval(2, 4));
    assert [t] == [t] + [];
    PlaceHead(t, [], b, [c]);
    AfterSecond(size);
    var over, above := Triple(size, Interval(2, 6)), Triple(2 * size, Interval(3, 4));
    assert [over, above] == [over] + [above];
    PlaceLast(over, [above], c);
  }

  lemma AfterSecond(size: nat)
    requires size > 0
    ensures Split([], size, Interval(2, 4), Interval(3, 6), size + size) == [Triple(size, Interval(2, 6)), Triple(2 * size, Interval(3, 4))]
  {
    var over, above := Triple(size, Interval(2, 6)), Triple(2 * size, Interval(3, 4));
    assert Above(Interval(2, 4), Interval(3, 6)) == Interval(3, 4) && Before(Interval(2, 4), Interval(3, 6)) == Interval(2, 6);
    assert Insert([], above) == [above] && Insert([above], over) == [over] + [above];
  }

  // How the group and the outsider are listed: the outsider is placed, the member is not.
  lemma ListedPlaced(all: seq<Buffer>)
    requires |all| == 3 && DistinctBuffers(all)
    requires all[0].info.sharingGroup == all[1].info.sharingGroup >= 0 > all[2].info.sharingGroup
    requires 0 < all[1].info.size <= all[0].info.size
    ensures Representative(all, all[0].info.sharingGroup) == [all[0]]
    ensures PlacedAmong(all, 3) == [all[0], all[2]] && GroupsHaveSize(all) && !IsPlaced(all, all[1])
  {
    var g := all[0].info.sharingGroup;
    assert all[..2][..1] == [all[0]] && all[..2][1] == all[1] && [all[0]][..0] == [];
    assert Representative([], g) == [] && Representative([all[0]], g) == [all[0]];
    assert Representative(all[..2], g) == [all[0]];
    assert PlacedAmong(all, 1) == [all[0]] && PlacedAmong(all, 2) == [all[0]];
  }

  // Where the three buffers end up.
  lemma EndsTogether(all: seq<Buffer>, r: Info, m: Info)
    requires Usable(r) && Usable(m) && 0 < m.size <= r.size && !TimesCovered(r, m)
    requires |all| == 3 && DistinctBuffers(all) && all[0].info == r && all[1].info == m && all[2].info == Outsider(r, m)
    requires KeepsStarts([all[0], all[2]]) && all[1].offset == AlignTo(all[0].offset, m.alignment)
    ensures Interferes(all[1], all[2])
  {
    hide Starts, Conflict, Outsider;
    var y, placed := Outsider(r, m), [all[0], all[2]];
    OutsiderConflicts(r, m);
    StartsTogether(r, y);
    ConflictSymmetric(r, 0, y, 0);
    assert Infos(placed) == [r, y];
    assert ApartAt([r, y], [0, 0]);
    assert Offsets(placed) == [0, 0];
    assert placed[0].offset == Offsets(placed)[0] && placed[1].offset == Offsets(placed)[1];
  }

  // The member follows the representative.
  lemma MemberFollows(all: seq<Buffer>, h: nat, k: nat)
    requires h < |all| && k < |all| && AllUsable(all) && GroupsHaveSize(all) && MembersFollow(all) && !IsPlaced(all, all[k])
    requires all[k].info.sharingGroup >= 0 && Representative(all, all[k].info.sharingGroup) == [all[h]]
    ensures all[k].offset == AlignTo(all[h].offset, all[k].info.alignment)
  {
    hide Representative, IsPlaced;
    assert AtHost(all, all[k]);
  }

  // ---------- a member that sticks out ----------

  // A buffer below the representative, the representative, and one above it, all live at one time.
  ghost predicate Stack(low: Info, r: Info, high: Info) {
    && Usable(low) && Usable(r) && Usable(high) && low.live == r.live == high.live
    && low.size > 0 && low.size % r.alignment == 0 && high.alignment == 1
  }

  lemma SingleOk(top: nat, live: Interval, xs: seq<Info>)
    requires live.NonEmpty() && forall i :: 0 <= i < |xs| ==> xs[i].live.Intersects(live)
    ensures MapOk([Triple(top, live)], xs)
  {
    var m := [Triple(top, live)];
    assert m[0] in m;
  }

  // A buffer that fills the time of the only triple is put on top of it.
  lemma PlaceOnTop(top: nat, x: Info, xs: seq<Info>)
    requires EachUsable([x] + xs) && EachUsable(xs)
    requires MapOk([Triple(top, x.live)], [x] + xs) && Usable(x)
    ensures var o := AlignTo(top, x.alignment);
            && MapOk([Triple(o + x.size, x.live)], xs)
            && Place([Triple(top, x.live)], [x] + xs) == [o] + Place([Triple(o + x.size, x.live)], xs)
  {
    hide MapOk, Place, AlignTo;
    var o, t := AlignTo(top, x.alignment), Triple(top, x.live);
    assert [t] == [t] + [];
    PlaceHead(t, [], x, xs);
    assert Split([], top, x.live, x.live, o + x.size) == [Triple(o + x.size, x.live)];
  }

  // None of the buffers fits below a triple of their own time.
  lemma NoneFits(xs: seq<Info>, range: Interval, rest: seq<Triple>, above: Triple)
    requires above in rest && forall i :: 0 <= i < |xs| ==> xs[i].live.Intersects(above.range)
    ensures FirstFit(xs, range, rest) == |xs| && forall i :: 0 <= i < |xs| ==> !Fits(xs[i].live, range, rest)
  {
    var k :| 0 <= k < |rest| && rest[k] == above;
    assert forall i :: 0 <= i < |xs| ==> rest[k].range.Intersects(xs[i].live);
  }

  // After the first buffer, those that are live with it go on top of it.
  lemma {:induction false} PlaceAbove(low: Info, xs: seq<Info>)
    requires Usable(low) && low.size > 0 && EachUsable(xs) && xs != []
    requires forall i :: 0 <= i < |xs| ==> xs[i].live.Intersects(low.live)
    requires MapOk(Split([], 0, Interval(0, MAX), low.live, low.size), xs)
    ensures MapOk([Triple(low.size, low.live)], xs)
    ensures Place(Split([], 0, Interval(0, MAX), low.live, low.size), xs) == Place([Triple(low.size, low.live)], xs)
  {
    hide Place, MapOk, Split, FirstFit;
    var whole, live := Interval(0, MAX), low.live;
    var before, after, above := Triple(0, Before(whole, live)), Triple(0, After(whole, live)), Triple(low.size, live);
    SplitWhole(low);
    SingleOk(low.size, live, xs);
    var rest := (if live.end < MAX then [after] else []) + [above];
    assert rest[|rest| - 1] == above;
    if 0 < live.start {
      assert Split([], 0, whole, live, low.size) == [before] + rest;
      NoneFits(xs, before.range, rest, above);
      DropMap(before, rest, xs);
      DropUseless(before, rest, xs);
    } else {
      assert Split([], 0, whole, live, low.size) == rest;
    }
    if live.end < MAX {
      assert [above][0] == above;
      NoneFits(xs, after.range, [above], above);
      DropUseless(after, [above], xs);
    } else {
      assert rest == [above];
    }
  }

  /** Placement stacks buffers that are live at the same time. */
  lemma StartsStacked(low: Info, r: Info, high: Info)
    requires Stack(low, r, high)
    ensures EachUsable([low, r, high]) && Starts([low, r, high]) == [0, low.size, low.size + r.size]
  {
    hide MapOk, Split, Place;
    var whole, xs, rest := Interval(0, MAX), [low, r, high], [r, high];
    StartMap(xs);
    PlaceFirst(low, rest);
    PlaceAbove(low, rest);
    assert rest == [r] + [high] && [high] == [high] + [];
    PlaceOnTop(low.size, r, [high]);
    PlaceOnTop(low.size + r.size, high, []);
    PlaceNone([Triple(low.size + r.size + high.size, high.live)]);
    assert xs == [low] + rest;
  }

  // The representative cannot be at the bottom.
  lemma StickingOut(r: Info, m: Info)
    requires Usable(r) && Usable(m) && m.size <= r.size && !FitsInside(r, m)
    ensures var o := Farthest(r.alignment, m.alignment);
            o > 0 && o % r.alignment == 0 && AlignTo(o, m.alignment) + m.size > o + r.size
  {
    hide Farthest, FitsInside, AlignTo;
    SticksOut(r, m);
    assert AlignTo(0, m.alignment) == 0;
  }

  function Lower(r: Info, o: nat): Info {
    Info(o, 1, r.live, {}, -1)
  }

  // A buffer in another region than the member, from the representative's end to the member's.
  function Upper(r: Info, m: Info, o: nat): Info
    requires m.alignment > 0 && AlignTo(o, m.alignment) + m.size > o + r.size
  {
    Info(AlignTo(o, m.alignment) + m.size - (o + r.size), 1, r.live, if m.regionIds == {} then {0} else {}, -1)
  }

  lemma UpperConflicts(r: Info, m: Info, o: nat)
    requires Usable(r) && Usable(m) && 0 < m.size <= r.size && o > 0 && o % r.alignment == 0
    requires AlignTo(o, m.alignment) + m.size > o + r.size
    ensures Upper(r, m, o).sharingGroup < 0 && Stack(Lower(r, o), r, Upper(r, m, o))
    ensures Conflict(m, AlignTo(o, m.alignment), Upper(r, m, o), o + r.size)
  {
  }

  lemma StackIsApart(low: Info, r: Info, high: Info)
    requires Stack(low, r, high)
    ensures ApartAt([low, r, high], [0, low.size, low.size + r.size])
  {
    hide DifferentRegion;
  }

  // The representative among one more buffer.
  lemma LastRepresents(all: seq<Buffer>, k: nat, g: int)
    requires k < |all|
    ensures k == 0 ==> Representative(all[..k], g) == []
    ensures var r := Representative(all[..k], g);
            Representative(all[..k + 1], g) ==
            if all[k].info.sharingGroup == g && all[k].info.size > (if r == [] then 0 else r[0].info.size) then [all[k]] else r
  {
    assert all[..k + 1][..k] == all[..k];
  }

  lemma ListedStacked(all: seq<Buffer>)
    requires |all| == 4 && DistinctBuffers(all)
    requires all[1].info.sharingGroup == all[2].info.sharingGroup >= 0
    requires 0 > all[0].info.sharingGroup && 0 > all[3].info.sharingGroup
    requires 0 < all[2].info.size <= all[1].info.size
    ensures Representative(all, all[1].info.sharingGroup) == [all[1]]
    ensures PlacedAmong(all, 4) == [all[0], all[1], all[3]] && GroupsHaveSize(all) && !IsPlaced(all, all[2])
  {
    hide PlacedAmong, Representative;
    StackRepresentative(all);
    var g := all[1].info.sharingGroup;
    assert [all[2]] != [all[1]];
    PlacedNext(all, 0);
    PlacedNext(all, 1);
    PlacedNext(all, 2);
    PlacedNext(all, 3);
    assert [all[0], all[1]] + [] == [all[0], all[1]];
  }

  lemma PlacedNext(all: seq<Buffer>, k: nat)
    requires k < |all|
    ensures k == 0 ==> PlacedAmong(all, k) == []
    ensures PlacedAmong(all, k + 1) == PlacedAmong(all, k) + if IsPlaced(all, all[k]) then [all[k]] else []
  {
    hide IsPlaced;
  }

  lemma StackRepresentative(all: seq<Buffer>)
    requires |all| == 4 && DistinctBuffers(all)
    requires all[1].info.sharingGroup == all[2].info.sharingGroup >= 0
    requires 0 > all[0].info.sharingGroup && 0 > all[3].info.sharingGroup
    requires 0 < all[2].info.size <= all[1].info.size
    ensures Representative(all, all[1].info.sharingGroup) == [all[1]]
  {
    hide Representative;
    var g := all[1].info.sharingGroup;
    assert all[..4] == all;
    LastRepresents(all, 0, g);
    LastRepresents(all, 1, g);
    LastRepresents(all, 2, g);
    LastRepresents(all, 3, g);
  }

  lemma EndsStacked(all: seq<Buffer>, r: Info, m: Info, o: nat)
    requires Usable(r) && Usable(m) && 0 < m.size <= r.size && o > 0 && o % r.alignment == 0
    requires AlignTo(o, m.alignment) + m.size > o + r.size
    requires |all| == 4 && DistinctBuffers(all)
    requires all[0].info == Lower(r, o) && all[1].info == r && all[2].info == m && all[3].info == Upper(r, m, o)
    requires KeepsStarts([all[0], all[1], all[3]]) && all[2].offset == AlignTo(all[1].offset, m.alignment)
    ensures Interferes(all[2], all[3])
  {
    hide Starts, Conflict, Stack, Lower, Upper, AlignTo;
    var low, high, placed := Lower(r, o), Upper(r, m, o), [all[0], all[1], all[3]];
    LowerSize(r, o);
    UpperConflicts(r, m, o);
    StartsStacked(low, r, high);
    StackIsApart(low, r, high);
    assert Infos(placed) == [low, r, high];
    assert Offsets(placed) == [0, o, o + r.size];
    assert placed[1].offset == Offsets(placed)[1] && placed[2].offset == Offsets(placed)[2];
  }

  lemma LowerSize(r: Info, o: nat)
    ensures Lower(r, o).size == o && Lower(r, o).sharingGroup < 0
  {
  }

  // ---------- sharing that is not safe goes wrong ----------

  // `all` has the representative and the member, and another buffer that the member interferes with.
  ghost predicate Overlap(all: seq<Buffer>, r: Info, m: Info, rep: Buffer, member: Buffer, other: Buffer)
    reads member, other
  {
    && rep in all && member in all && other in all && rep.info == r && member.info == m
    && other.info.sharingGroup < 0 && Interferes(member, other)
  }

  // The times are not covered: another buffer is live or in another region with the member and not
  // with the representative.
  method ShareAtOtherTimes(r: Info, m: Info) returns (all: seq<Buffer>)
    requires Usable(r) && Usable(m) && 0 < m.size <= r.size && r.sharingGroup == m.sharingGroup >= 0
    requires !TimesCovered(r, m)
    ensures |all| == 3 && DistinctBuffers(all) && AllUsable(all) && GroupsHaveSize(all)
    ensures MembersFollow(all) && KeepsStarts(PlacedAmong(all, |all|))
    ensures Overlap(all, r, m, all[0], all[1], all[2])
    ensures m.regionIds == r.regionIds ==> m.live.Intersects(all[2].info.live)
  {
    hide Conflict, KeepsStarts, MembersFollow, Representative, PlacedAmong, IsPlaced, Outsider, TimesCovered;
    OutsiderConflicts(r, m);
    var rep := new Buffer(r);
    var member := new Buffer(m);
    var other := new Buffer(Outsider(r, m));
    all := [rep, member, other];
    ListedPlaced(all);
    var analysis := new AllocationAnalysis();
    ghost var placed := analysis.ComputeOffsets(all);
    MemberFollows(all, 0, 1);
    EndsTogether(all, r, m);
  }

  // The member is aligned past the representative's end.
  method ShareBeyondTheEnd(r: Info, m: Info) returns (all: seq<Buffer>)
    requires Usable(r) && Usable(m) && 0 < m.size <= r.size && r.sharingGroup == m.sharingGroup >= 0
    requires !FitsInside(r, m)
    ensures |all| == 4 && DistinctBuffers(all) && AllUsable(all) && GroupsHaveSize(all)
    ensures MembersFollow(all) && KeepsStarts(PlacedAmong(all, |all|))
    ensures Overlap(all, r, m, all[1], all[2], all[3])
  {
    hide Conflict, KeepsStarts, MembersFollow, Representative, PlacedAmong, IsPlaced, FitsInside, AlignTo;
    var o := Farthest(r.alignment, m.alignment);
    StickingOut(r, m);
    UpperConflicts(r, m, o);
    var low := new Buffer(Lower(r, o));
    var rep := new Buffer(r);
    var member := new Buffer(m);
    var high := new Buffer(Upper(r, m, o));
    all := [low, rep, member, high];
    ListedStacked(all);
    var analysis := new AllocationAnalysis();
    ghost var placed := analysis.ComputeOffsets(all);
    MemberFollows(all, 1, 2);
    EndsStacked(all, r, m, o);
  }

  /** For every representative and member for which sharing is not safe there are further buffers
      with which `computeOffsets` leaves the member and another buffer in conflict. */
  method ShareUnsafely(r: Info, m: Info) returns (all: seq<Buffer>, rep: Buffer, member: Buffer, other: Buffer)
    requires Usable(r) && Usable(m) && 0 < m.size <= r.size && r.sharingGroup == m.sharingGroup >= 0
    requires !Covered(r, m)
    ensures DistinctBuffers(all) && AllUsable(all) && GroupsHaveSize(all)
    ensures MembersFollow(all) && KeepsStarts(PlacedAmong(all, |all|))
    ensures Overlap(all, r, m, rep, member, other)
  {
    hide KeepsStarts, MembersFollow, PlacedAmong, Representative, Interferes, FitsInside, TimesCovered;
    if !FitsInside(r, m) {
      all := ShareBeyondTheEnd(r, m);
      rep, member, other := all[1], all[2], all[3];
    } else {
      all := ShareAtOtherTimes(r, m);
      rep, member, other := all[0], all[1], all[2];
    }
  }
}
