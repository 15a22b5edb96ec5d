/** The alignment hints of lib/Analysis/AxisInfo.cpp are the best that follow from what is known of the
operands; all of them are powers of two, as in the source. */
module HintsTight {
  import opened Arith
  import opened Wrappers
  import opened Words
  import opened Divisibility
  import opened AxisInfo

  // ---------- powers of two ----------

  lemma Ordered(a: nat, b: nat)
    requires IsPow2(a) && IsPow2(b) && a <= b
    ensures a > 0 && Divides(a, b)
  {
    var x: nat :| a == Pow2(x);
    var y: nat :| b == Pow2(y);
    Pow2Monotone(x, y);
    Pow2Divides(x, y);
  }

  lemma GcdOfMultiple(a: nat, b: nat)
    requires a > 0 && b > 0 && Divides(b, a)
    ensures Gcd(a, b) == b && Gcd(b, a) == b
  {
    assert b == 1 * b;
    GcdIsGreatest(a, b, b);
    GcdIsGreatest(b, a, b);
    Mutual(b, Gcd(a, b));
    Mutual(b, Gcd(b, a));
  }

  lemma Mutual(a: nat, b: nat)
    requires a > 0 && b > 0 && Divides(a, b) && Divides(b, a)
    ensures a == b
  {
    var p: int :| b == p * a;
    var q: int :| a == q * b;
    Multiples(p, a);
    Multiples(q, b);
  }

  lemma GcdIsMin(a: nat, b: nat)
    requires IsPow2(a) && IsPow2(b)
    ensures Gcd(a, b) == Min(a, b) && IsPow2(Min(a, b)) && a > 0 && b > 0
  {
    if a <= b {
      Ordered(a, b);
      GcdOfMultiple(b, a);
    } else {
      Ordered(b, a);
      GcdOfMultiple(a, b);
    }
  }

  lemma HintIsMin(c: nat, lhs: Info, rhs: Info)
    requires IsPow2(c) && IsPow2(lhs.divisibility) && IsPow2(rhs.divisibility)
    ensures Hint(c, lhs, rhs) == Min(c, Min(lhs.divisibility, rhs.divisibility)) > 0
  {
    hide IsPow2;
    GcdIsMin(lhs.divisibility, rhs.divisibility);
    GcdIsMin(c, Min(lhs.divisibility, rhs.divisibility));
  }

  // ---------- operands ----------

  // Groups of c consecutive values; the first starts at `first`, the others at `later`.
  function Runs(first: int, later: int, c: nat, n: nat): (v: seq<int>)
    requires c > 0
    ensures |v| == n && forall i :: 0 <= i < n ==> v[i] == (if i < c then first else later) + (i - GroupStart(i, c))
  {
    seq(n, i requires 0 <= i < n => (if i < c then first else later) + (i - GroupStart(i, c)))
  }

  function Same(x: int, n: nat): (w: seq<int>)
    ensures |w| == n && forall i :: 0 <= i < n ==> w[i] == x
  {
    seq(n, i => x)
  }

  lemma FirstGroup(i: nat, c: nat)
    requires c > 0
    ensures i < c ==> GroupStart(i, c) == 0
    ensures GroupStart(i, c) >= c <==> i >= c
    ensures GroupStart(GroupStart(i, c), c) == GroupStart(i, c)
  {
    if i < c {
      OneGroup(i, c);
    }
    StartIsStart(i, c);
    OneGroup(0, c);
    if i >= c && GroupStart(i, c) < c {
      OneGroup(GroupStart(i, c), c);
    }
  }

  lemma RunsHold(first: int, later: int, c: nat, n: nat, d: nat)
    requires c > 0 && d > 0 && Divides(d, first) && Divides(d, later)
    ensures Holds(Runs(first, later, c, n), Info(c, d, 1, None))
  {
    hide Divides, GroupStart;
    var v := Runs(first, later, c, n);
    forall i | 0 <= i < n ensures v[i] == v[GroupStart(i, c)] + (i - GroupStart(i, c)) && Divides(d, v[GroupStart(i, c)]) {
      FirstGroup(i, c);
    }
    forall i | 0 <= i < n ensures v[i] == v[GroupStart(i, 1)] {
      Single(i);
    }
  }

  lemma Single(i: nat)
    ensures GroupStart(i, 1) == i
  {
  }

  lemma SameHolds(x: int, n: nat, d: nat)
    requires n > 0 && d > 0 && Divides(d, x)
    ensures Holds(Same(x, n), Info(1, d, n, None))
  {
    hide Divides, GroupStart;
    var w := Same(x, n);
    forall i | 0 <= i < n ensures w[i] == w[GroupStart(i, 1)] + (i - GroupStart(i, 1)) && Divides(d, w[GroupStart(i, 1)]) {
      Single(i);
    }
  }

  // A multiple of dl below dr from which h = min(dl, dr) steps lead to dr.
  function Below(dl: nat, dr: nat): (s: int)
    ensures s + Min(dl, dr) == dr
  {
    dr - Min(dl, dr)
  }

  lemma BelowIsMultiple(dl: nat, dr: nat)
    requires IsPow2(dl) && IsPow2(dr)
    ensures Below(dl, dr) >= 0 && Divides(dl, Below(dl, dr)) && Divides(dr, dr)
  {
    assert dr == 1 * dr && dl == 1 * dl && 0 == 0 * dl;
    if dl < dr {
      Ordered(dl, dr);
      DividesSum(dl, dr, dl);
    }
  }

  // ---------- division and remainder ----------

  // The largest hint the visitors can give for a contiguous dividend and a constant divisor.
  ghost predicate Misled(n: nat, dl: nat, dr: nat, g: nat, v: seq<int>, w: seq<int>)
    requires g > 0 && n > 0
  {
    && |v| == |w| == n && Operands(v, w) && Holds(v, Info(n, dl, 1, None)) && Holds(w, Info(1, dr, n, None))
    && !ConstantBy(Quotients(v, w), g) && !ContiguousBy(Remainders(v, w), g)
  }

  /** For a contiguous dividend and a constant divisor no larger power of two is a constancy of all
      quotients, or a contiguity of all remainders. */
  lemma DivRemHintsAreBest(n: nat, dl: nat, dr: nat, g: nat)
    requires IsPow2(n) && IsPow2(dl) && IsPow2(dr) && g <= n
    requires g > RemContiguity(Info(n, dl, 1, None), Info(1, dr, n, None), n)
    ensures n > 0 && RemContiguity(Info(n, dl, 1, None), Info(1, dr, n, None), n)
                     == DivConstancy(Info(n, dl, 1, None), Info(1, dr, n, None), n) == Min(n, Min(dl, dr))
    ensures exists v, w :: Misled(n, dl, dr, g, v, w)
  {
    hide IsPow2, Divides, Holds, GroupStart;
    var lhs, rhs, h := Info(n, dl, 1, None), Info(1, dr, n, None), Min(dl, dr);
    HintIsMin(n, lhs, rhs);
    GcdIsMin(dl, dr);
    OneAndAny(n);
    BelowIsMultiple(dl, dr);
    var s := Below(dl, dr);
    var v, w := Runs(s, s, n, n), Same(dr, n);
    RunsHold(s, s, n, n, dl);
    SameHolds(dr, n, dr);
    forall i | 0 <= i < n ensures v[i] == s + i {
      FirstGroup(i, n);
    }
    FirstGroup(h, g);
    SmallQuotients(s, dr);
    assert Quotients(v, w)[0] == 0 && Quotients(v, w)[h] == 1;
    assert Remainders(v, w)[0] == s && Remainders(v, w)[h] == 0;
    assert Misled(n, dl, dr, g, v, w);
  }

  lemma OneAndAny(n: nat)
    requires n > 0
    ensures Gcd(1, n) == 1
  {
    assert n == n * 1;
    GcdOfMultiple(n, 1);
  }

  lemma SmallQuotients(s: int, d: nat)
    requires 0 <= s < d
    ensures s / d == 0 && s % d == s && d / d == 1 && d % d == 0
  {
    DivModUnique(s, d, 0, s);
    DivModUnique(d, d, 1, 0);
  }

  /** For a dividend that is contiguous in shorter groups the remainder visitor reports 1, where the
      same hint would hold. */
  lemma RemCouldSayMore(v: seq<int>, w: seq<int>, lhs: Info, rhs: Info)
    requires Operands(v, w) && Holds(v, lhs) && Holds(w, rhs) && rhs.constancy == |v| && lhs.contiguity != |v|
    ensures RemContiguity(lhs, rhs, |v|) == 1
    ensures Hint(lhs.contiguity, lhs, rhs) > 0 && ContiguousBy(Remainders(v, w), Hint(lhs.contiguity, lhs, rhs))
  {
    hide Divides, GroupStart;
    var k, r := Hint(lhs.contiguity, lhs, rhs), Remainders(v, w);
    HintDivides(lhs.contiguity, lhs, rhs);
    forall i | 0 <= i < |v| ensures r[i] == r[GroupStart(i, k)] + (i - GroupStart(i, k)) {
      ConstantAgainstRun(w, v, rhs, lhs, k, i);
      BetweenMultiples(k, v[GroupStart(i, k)], i - GroupStart(i, k), w[0]);
    }
  }

  // ---------- comparison ----------

  ghost predicate Undecided(p: Predicate, lhs: Info, rhs: Info, g: nat, v: seq<int>, w: seq<int>)
    requires g > 0
  {
    |v| == |w| && Holds(v, lhs) && Holds(w, rhs) && !ConstantBy(Comparisons(p, v, w), g)
  }

  // Groups of c values that stay below a constant for the first k of them, and no longer.
  lemma CrossingRun(c: nat, n: nat, dl: nat, dr: nat) returns (v: seq<int>)
    requires IsPow2(c) && IsPow2(dl) && IsPow2(dr) && c <= n && Min(c, Min(dl, dr)) < n
    ensures c > 0 && dl > 0 && |v| == n && Holds(v, Info(c, dl, 1, None))
    ensures v[0] < dr && v[Min(c, Min(dl, dr))] >= dr
  {
    hide IsPow2, Divides, Holds, GroupStart;
    GcdIsMin(dl, dr);
    GcdIsMin(c, dl);
    BelowIsMultiple(dl, dr);
    var h := Min(dl, dr);
    FirstGroup(0, c);
    if h < c {
      v := Runs(Below(dl, dr), Below(dl, dr), c, n);
      RunsHold(Below(dl, dr), Below(dl, dr), c, n, dl);
      FirstGroup(h, c);
    } else {
      v := Runs(0, dr * dl, c, n);
      DividesBy(dl, 0);
      DividesBy(dl, dr);
      RunsHold(0, dr * dl, c, n, dl);
      FirstGroup(c, c);
      Multiples(dl, dr);
    }
  }

  /** For a contiguous operand against a constant one no larger power of two is a constancy of all
      results of <, >=, > and <=. */
  lemma CmpHintIsBest(p: Predicate, c: nat, n: nat, dl: nat, dr: nat, g: nat)
    requires IsPow2(c) && IsPow2(n) && IsPow2(dl) && IsPow2(dr) && c <= n && g <= n && !p.Eq? && !p.Ne?
    requires var run, same := Info(c, dl, 1, None), Info(1, dr, n, None);
             g > (if p.Lt? || p.Ge? then CmpConstancy(p, run, same, n) else CmpConstancy(p, same, run, n))
    ensures g > 0
    ensures var run, same := Info(c, dl, 1, None), Info(1, dr, n, None);
            exists v, w :: if p.Lt? || p.Ge? then Undecided(p, run, same, g, v, w) else Undecided(p, same, run, g, w, v)
  {
    hide IsPow2, Divides, Holds, GroupStart;
    var run, same, k := Info(c, dl, 1, None), Info(1, dr, n, None), Min(c, Min(dl, dr));
    HintIsMin(c, run, same);
    HintIsMin(c, same, run);
    GcdIsMin(dl, dr);
    PositivePow2(n);
    OneAndAny(n);
    CmpHints(p, run, same, n, c);
    var v := CrossingRun(c, n, dl, dr);
    var w := Same(dr, n);
    BelowIsMultiple(dl, dr);
    SameHolds(dr, n, dr);
    FirstGroup(k, g);
    if p.Lt? || p.Ge? {
      assert Comparisons(p, v, w)[0] != Comparisons(p, v, w)[k];
      assert Undecided(p, run, same, g, v, w);
    } else {
      assert Comparisons(p, w, v)[0] != Comparisons(p, w, v)[k];
      assert Undecided(p, same, run, g, w, v);
    }
  }

  lemma PositivePow2(n: nat)
    requires IsPow2(n)
    ensures n > 0
  {
  }

  lemma CmpHints(p: Predicate, run: Info, same: Info, n: nat, c: nat)
    requires !p.Eq? && !p.Ne? && run.contiguity == c && run.constancy == 1 && same.constancy == n > 0 && run.constant == same.constant == None
    requires Hint(c, run, same) > 0 && Hint(c, same, run) > 0 && Gcd(1, n) == 1
    ensures p.Lt? || p.Ge? ==> CmpConstancy(p, run, same, n) >= Hint(c, run, same)
    ensures p.Gt? || p.Le? ==> CmpConstancy(p, same, run, n) >= Hint(c, same, run)
  {
  }

  // ---------- multiplication ----------

  /** As long as the product of the divisors can be represented, no larger number divides all products
      of scalars that they divide. */
  lemma MulHintIsBest(dl: nat, dr: nat, d: nat)
    requires IsPow2(dl) && IsPow2(dr) && dl * dr <= MAX_DIVISOR
    requires dl > 0 && dr > 0 && d > MulDivisibility(Info(1, dl, 1, None), Info(1, dr, 1, None))
    ensures Holds([dl], Info(1, dl, 1, None)) && Holds([dr], Info(1, dr, 1, None))
    ensures MulDivisibility(Info(1, dl, 1, None), Info(1, dr, 1, None)) == dl * dr
    ensures !Divides(d, Products([dl], [dr])[0])
  {
    ScalarHolds(dl);
    ScalarHolds(dr);
    if dl > MAX_DIVISOR / dr {
      QuotientExceeded(dl, dr, MAX_DIVISOR);
    }
    NotDivided(d, dl * dr);
  }

  lemma ScalarHolds(d: nat)
    requires d > 0
    ensures Holds([d], Info(1, d, 1, None))
  {
    Single(0);
    assert d == 1 * d;
  }

  lemma NotDivided(d: nat, x: nat)
    requires 0 < x < d
    ensures !Divides(d, x)
  {
    forall q: int ensures x != q * d {
      Multiples(q, d);
    }
  }
}
