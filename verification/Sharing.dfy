/** When a buffer can use the memory of its group's representative (the FIXME at
lib/Analysis/Allocation.cpp:532): placement considers the representative alone. */
module Sharing {
  import opened Arith
  import opened Divisibility
  import opened Intervals
  import opened Placement
  import opened Coloring

  // ---------- where the member lies ----------

  lemma AlignedDivides(a: nat, v: nat)
    requires a > 0 && v % a == 0
    ensures Divides(a, v)
  {
    assert v == v / a * a;
  }

  // Rounding up multiples of r to multiples of m adds at most m less their greatest common divisor ...
  lemma GapBounds(r: nat, m: nat, o: nat)
    requires r > 0 && m > 0 && o % r == 0
    ensures AlignTo(o, m) - o <= m - Gcd(r, m)
  {
    var g, d := Gcd(r, m), AlignTo(o, m) - o;
    GcdDivides(r, m);
    AlignedDivides(r, o);
    AlignedDivides(m, AlignTo(o, m));
    DividesTrans(g, r, o);
    DividesTrans(g, m, AlignTo(o, m));
    DividesSum(g, AlignTo(o, m), o);
    DividesSum(g, m, d);
    PositiveMultiple(g, m - d);
  }

  lemma PositiveMultiple(g: nat, x: int)
    requires Divides(g, x) && x > 0
    ensures g <= x
  {
    var q: int :| x == q * g;
    Multiples(q, g);
  }

  // ... and for this multiple no less.
  function Farthest(r: nat, m: nat): nat
    requires r > 0 && m > 0
  {
    GcdImpl(r, m).1 % m * r
  }

  lemma GapReached(r: nat, m: nat)
    requires r > 0 && m > 0
    ensures var o := Farthest(r, m); o % r == 0 && AlignTo(o, m) - o == m - Gcd(r, m)
  {
    var g, x, y := Gcd(r, m), GcdImpl(r, m).1, GcdImpl(r, m).2;
    GcdDivides(r, m);
    PositiveMultiple(g, m);
    var k := x % m;
    var o := Farthest(r, m);
    MultipleMod(k, r);
    assert o == g + m * (-(x / m) * r - y) by {
      assert x == x / m * m + k;
      Bezout(r, m, x, x / m, k, y);
    }
    RoundsUp(o, m, g, -(x / m) * r - y);
  }

  lemma Bezout(r: int, m: int, x: int, q: int, k: int, y: int)
    requires x == q * m + k
    ensures k * r == (r * x + m * y) + m * (-q * r - y)
  {
    assert r * x == r * (q * m) + r * k;
    assert m * (-q * r - y) == -(m * (q * r)) - m * y;
    assert r * (q * m) == m * (q * r);
  }

  // A number g above a multiple of m is rounded up by m - g.
  lemma RoundsUp(o: nat, m: nat, g: nat, n: int)
    requires 0 < g <= m && o == g + m * n
    ensures AlignTo(o, m) - o == m - g
  {
    var up := AlignTo(o, m);
    AlignedDivides(m, up);
    var q: int :| up == q * m;
    assert (o + m - g) == (n + 1) * m;
    assert up - (o + m - g) == (q - n - 1) * m;
    Multiples(q - n - 1, m);
  }

  // ---------- the condition ----------

  // However the representative is placed, the member's memory lies within its memory.
  predicate FitsInside(r: Info, m: Info) {
    m.alignment - Gcd(r.alignment, m.alignment) + m.size <= r.size
  }

  // The representative conflicts with whoever is live with the member or in another region, if
  // their memory meets.
  predicate TimesCovered(r: Info, m: Info) {
    || TwoRegions(r.regionIds)
    || (r.live.start == 0 && r.live.end == MAX)
    || (m.regionIds == r.regionIds && m.live.Within(r.live))
  }

  /** The caller's side of sharing. */
  predicate Covered(r: Info, m: Info) {
    FitsInside(r, m) && TimesCovered(r, m)
  }

  lemma CoversItself(r: Info)
    requires r.alignment > 0
    ensures Covered(r, r)
  {
    GapBounds(r.alignment, r.alignment, 0);
    GcdDivides(r.alignment, r.alignment);
    DividesItself(r.alignment);
  }

  lemma DividesItself(a: nat)
    requires a > 0
    ensures Gcd(a, a) == a
  {
    GcdIsGreatest(a, a, a);
    assert Divides(a, a) by { assert a == 1 * a; }
    PositiveMultiple(a, Gcd(a, a));
    PositiveMultiple(Gcd(a, a), a);
  }

  lemma CoveredMemberFits(r: Info, m: Info, o: nat)
    requires Covered(r, m) && r.alignment > 0 && m.alignment > 0 && o % r.alignment == 0
    ensures AlignTo(o, m.alignment) + m.size <= o + r.size
  {
    GapBounds(r.alignment, m.alignment, o);
  }

  /** A covered member conflicts with nothing its representative does not conflict with. */
  lemma CoveredMemberIsSafe(r: Info, m: Info, y: Info, ro: nat, yo: nat)
    requires Covered(r, m) && r.alignment > 0 && m.alignment > 0 && ro % r.alignment == 0 && Usable(y)
    requires Conflict(m, AlignTo(ro, m.alignment), y, yo)
    ensures Conflict(r, ro, y, yo)
  {
    hide TwoRegions, DifferentRegion, AlignTo, Covered;
    CoveredMemberFits(r, m, ro);
    assert TimesCovered(r, m) by {
      CoversTimes(r, m);
    }
    if TwoRegions(r.regionIds) {
      TwoRegionsDiffer(r.regionIds, y.regionIds);
    }
  }

  lemma CoversTimes(r: Info, m: Info)
    requires Covered(r, m)
    ensures TimesCovered(r, m)
  {
  }

  // ---------- it is needed ----------

  // Whoever stays clear of the representative stays clear of the member.
  ghost predicate MemberSafe(r: Info, m: Info)
    requires m.alignment > 0 && r.alignment > 0
  {
    forall y: Info, ro: nat, yo: nat :: Usable(y) && ro % r.alignment == 0 && Conflict(m, AlignTo(ro, m.alignment), y, yo)
      ==> Conflict(r, ro, y, yo)
  }

  // A time at which the representative is not live; one at which the member is, if there is one.
  function Absence(r: Interval, m: Interval): nat
    requires m.NonEmpty()
  {
    if m.start < r.start then m.start
    else if r.end < m.end then m.end - 1
    else if 0 < r.start then 0 else r.end
  }

  // A buffer in the representative's region that is live only when the representative is not.
  function Outsider(r: Info, m: Info): Info
    requires m.live.NonEmpty()
  {
    var p := Absence(r.live, m.live);
    Info(m.size, 1, Interval(p, p + 1), r.regionIds, -1)
  }

  lemma OutsiderConflicts(r: Info, m: Info)
    requires Usable(r) && Usable(m) && m.size > 0 && !TimesCovered(r, m)
    ensures Usable(Outsider(r, m)) && !Outsider(r, m).live.Intersects(r.live) && Outsider(r, m).sharingGroup < 0
    ensures Conflict(m, AlignTo(0, m.alignment), Outsider(r, m), 0) && !Conflict(r, 0, Outsider(r, m), 0)
    ensures m.regionIds == r.regionIds ==> m.live.Intersects(Outsider(r, m).live)
  {
    var y := Outsider(r, m);
    assert !DifferentRegion(r.regionIds, y.regionIds);
    if m.regionIds != r.regionIds {
      OtherRegionsDiffer(m.regionIds, r.regionIds);
    }
  }

  // A place for the representative from which the member sticks out.
  lemma SticksOut(r: Info, m: Info)
    requires Usable(r) && Usable(m) && !FitsInside(r, m)
    ensures var o := Farthest(r.alignment, m.alignment);
            o % r.alignment == 0 && AlignTo(o, m.alignment) + m.size > o + r.size
  {
    hide Farthest, Gcd, AlignTo;
    GapReached(r.alignment, m.alignment);
  }

  // A buffer on the last byte of the member, and past the end of the representative.
  lemma OverhangConflicts(r: Info, m: Info)
    requires Usable(r) && Usable(m) && m.size > 0 && !FitsInside(r, m)
    ensures !MemberSafe(r, m)
  {
    hide AlignTo, DifferentRegion, Farthest, FitsInside;
    var ro := Farthest(r.alignment, m.alignment);
    SticksOut(r, m);
    var mo := AlignTo(ro, m.alignment);
    var y, yo := Info(1, 1, m.live, m.regionIds, -1), mo + m.size - 1;
    assert Usable(y) && Conflict(m, mo, y, yo) && !Conflict(r, ro, y, yo);
  }

  /** Sharing is safe exactly when the member always fits into the representative's memory, and the
      representative conflicts with all that the member would: it is live whenever the member is
      and in the same regions, or live all the time, or it has more than one region. */
  lemma MemberSafeIff(r: Info, m: Info)
    requires Usable(r) && Usable(m) && m.size > 0
    ensures MemberSafe(r, m) <==> Covered(r, m)
  {
    if Covered(r, m) {
      forall y: Info, ro: nat, yo: nat | Usable(y) && ro % r.alignment == 0 && Conflict(m, AlignTo(ro, m.alignment), y, yo)
        ensures Conflict(r, ro, y, yo)
      {
        CoveredMemberIsSafe(r, m, y, ro, yo);
      }
    } else if !FitsInside(r, m) {
      OverhangConflicts(r, m);
    } else {
      OutsiderConflicts(r, m);
      assert 0 % r.alignment == 0;
    }
  }
}
