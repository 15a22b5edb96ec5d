/** Alignment facts about the values along one dimension of a tensor (lib/Analysis/AxisInfo.cpp). */
module AxisInfo {
  import opened Arith
  import opened Wrappers
  import opened Words
  import opened Divisibility

  // ---------- what the facts mean ----------

  /** What is known of the values along one dimension. */
  datatype Info = Info(contiguity: nat, divisibility: nat, constancy: nat, constant: Option<int>) {
    ghost predicate Valid() {
      contiguity > 0 && divisibility > 0 && constancy > 0
    }
  }

  // The first index of the aligned group of k that holds i.
  function GroupStart(i: nat, k: nat): (s: nat)
    requires k > 0
    ensures s <= i < s + k
  {
    GroupBounds(i, k);
    i / k * k
  }

  lemma GroupBounds(i: nat, k: nat)
    requires k > 0
    ensures i / k * k <= i < i / k * k + k
  {
  }

  ghost predicate ContiguousBy(v: seq<int>, k: nat)
    requires k > 0
  {
    forall i :: 0 <= i < |v| ==> v[i] == v[GroupStart(i, k)] + (i - GroupStart(i, k))
  }

  ghost predicate ConstantBy<T>(v: seq<T>, k: nat)
    requires k > 0
  {
    forall i :: 0 <= i < |v| ==> v[i] == v[GroupStart(i, k)]
  }

  // The first element of every group of k is divisible by d.
  ghost predicate StartsDivisibleBy(v: seq<int>, k: nat, d: nat)
    requires k > 0
  {
    forall i :: 0 <= i < |v| ==> Divides(d, v[GroupStart(i, k)])
  }

  ghost predicate Holds(v: seq<int>, f: Info) {
    && f.Valid() && ContiguousBy(v, f.contiguity) && ConstantBy(v, f.constancy)
    && StartsDivisibleBy(v, f.contiguity, f.divisibility)
    && (f.constant.Some? ==> forall i :: 0 <= i < |v| ==> v[i] == f.constant.value)
  }

  // A group of k inside a group of c, when k divides c.
  lemma GroupInGroup(i: nat, k: nat, c: nat)
    requires k > 0 && c > 0 && Divides(k, c)
    ensures GroupStart(GroupStart(i, k), c) == GroupStart(i, c)
    ensures Divides(k, GroupStart(i, k)) && Divides(k, GroupStart(i, c))
    ensures GroupStart(i, c) <= GroupStart(i, k)
  {
    var s, t := GroupStart(i, k), GroupStart(i, c);
    DividesBy(k, i / k);
    DividesBy(c, i / c);
    DividesTrans(k, c, t);
    MultipleBelow(t, s, i, k);
    DivModUnique(s, c, i / c, s - t);
  }

  lemma OneGroup(i: nat, n: nat)
    requires i < n
    ensures GroupStart(i, n) == 0
  {
    DivModUnique(i, n, 0, i);
  }

  // ---------- groups of values between multiples ----------

  /** Between two multiples of k, dividing by a multiple of k gives one quotient and consecutive
      remainders, and no comparison with a multiple of k changes, if equality goes with above. */
  lemma BetweenMultiples(k: nat, x: nat, j: nat, r: nat)
    requires k > 0 && Divides(k, x) && Divides(k, r) && r > 0 && j < k
    ensures (x + j) / r == x / r && (x + j) % r == x % r + j
  {
    var m: int :| x == m * k;
    var p: int :| r == p * k;
    PositiveFactor(p, k, r);
    PositiveFactor2(m, k, x);
    MultipleGroup(k, m, p, 0);
    MultipleGroup(k, m, p, j);
  }

  lemma MultipleGroup(k: nat, m: nat, p: nat, j: nat)
    requires p > 0 && j < k
    ensures p * k > 0 && (m * k + j) / (p * k) == m / p && (m * k + j) % (p * k) == m % p * k + j
  {
    ScaledDivision(m, p, k);
    GroupQuotient(m / p, m % p, p, k, j);
  }

  lemma GroupQuotient(q: nat, e: nat, p: nat, k: nat, j: nat)
    requires e < p && j < k
    ensures p * k > 0
    ensures (q * (p * k) + e * k + j) / (p * k) == q && (q * (p * k) + e * k + j) % (p * k) == e * k + j
  {
    SmallRemainder(e, p, k, j);
    DivModUnique(q * (p * k) + e * k + j, p * k, q, e * k + j);
  }

  lemma ScaledDivision(m: nat, p: nat, k: nat)
    requires p > 0
    ensures m * k == m / p * (p * k) + m % p * k && m % p < p
  {
    DivisionSplits(m, p);
    ScaledSum(m / p, p, m % p, k);
  }

  lemma DivisionSplits(m: nat, p: nat)
    requires p > 0
    ensures m == m / p * p + m % p && m % p < p
  {
  }

  lemma ScaledSum(q: nat, p: nat, e: nat, k: nat)
    ensures (q * p + e) * k == q * (p * k) + e * k
  {
    assert (q * p + e) * k == q * p * k + e * k;
  }

  lemma PositiveFactor(p: int, k: nat, r: nat)
    requires r == p * k && r > 0
    ensures p > 0
  {
    Multiples(p, k);
  }

  lemma PositiveFactor2(m: int, k: nat, x: nat)
    requires x == m * k && k > 0
    ensures m >= 0
  {
    Multiples(m, k);
  }

  lemma SmallRemainder(e: nat, p: nat, k: nat, j: nat)
    requires e < p && j < k
    ensures e * k + j < p * k && e * k >= 0
  {
    assert p * k - e * k == (p - e) * k;
    Multiples(p - e, k);
  }

  lemma BetweenComparisons(k: nat, x: int, j: nat, a: int)
    requires k > 0 && Divides(k, x) && Divides(k, a) && j < k
    ensures (a > x + j <==> a > x) && (a <= x + j <==> a <= x)
  {
    var m: int :| x == m * k;
    var p: int :| a == p * k;
    assert a - x == (p - m) * k;
    Multiples(p - m, k);
  }

  // ---------- div, rem and cmp ----------

  // gcd of the contiguity and both divisibilities
  function Hint(contiguity: nat, lhs: Info, rhs: Info): nat {
    Gcd(contiguity, Gcd(lhs.divisibility, rhs.divisibility))
  }

  lemma HintDivides(contiguity: nat, lhs: Info, rhs: Info)
    requires contiguity > 0 && lhs.Valid() && rhs.Valid()
    ensures var k := Hint(contiguity, lhs, rhs);
            k > 0 && Divides(k, contiguity) && Divides(k, lhs.divisibility) && Divides(k, rhs.divisibility)
  {
    GcdDivides(lhs.divisibility, rhs.divisibility);
    var g := Gcd(lhs.divisibility, rhs.divisibility);
    GcdDivides(contiguity, g);
    DividesTrans(Hint(contiguity, lhs, rhs), g, lhs.divisibility);
    DividesTrans(Hint(contiguity, lhs, rhs), g, rhs.divisibility);
  }

  // getConstancy of a division, along a dimension of size n.
  function DivConstancy(lhs: Info, rhs: Info, n: nat): nat {
    var c := Gcd(lhs.constancy, rhs.constancy);
    if lhs.contiguity == n && rhs.constancy == n then Max(c, Hint(lhs.contiguity, lhs, rhs)) else c
  }

  // getContiguity of a remainder.
  function RemContiguity(lhs: Info, rhs: Info, n: nat): nat {
    if lhs.contiguity == n && rhs.constancy == n then Max(1, Hint(lhs.contiguity, lhs, rhs)) else 1
  }

  lemma ConstantByDivisor<T>(v: seq<T>, k: nat, c: nat)
    requires k > 0 && c > 0 && Divides(k, c) && ConstantBy(v, c)
    ensures ConstantBy(v, k)
  {
    forall i | 0 <= i < |v| ensures v[i] == v[GroupStart(i, k)] {
      GroupInGroup(i, k, c);
    }
  }

  // With a contiguous dividend and a constant divisor, a group lies between two multiples.
  lemma GroupBetween(v: seq<int>, w: seq<int>, lhs: Info, rhs: Info, i: nat)
    requires |v| == |w| && Holds(v, lhs) && Holds(w, rhs) && i < |v|
    requires lhs.contiguity == |v| && rhs.constancy == |v|
    ensures Hint(lhs.contiguity, lhs, rhs) > 0
    ensures var k := Hint(lhs.contiguity, lhs, rhs); var s := GroupStart(i, k);
            && Divides(k, v[s]) && Divides(k, w[0]) && v[i] == v[s] + (i - s) && w[i] == w[s] == w[0]
  {
    hide Divides;
    var n := |v|;
    var k := Hint(n, lhs, rhs);
    HintDivides(n, lhs, rhs);
    var s := GroupStart(i, k);
    OneGroup(i, n);
    OneGroup(s, n);
    GroupInGroup(i, k, n);
    assert v[i] == v[0] + i && v[s] == v[0] + s && w[i] == w[0] && w[s] == w[0];
    assert Divides(lhs.divisibility, v[GroupStart(i, n)]);
    DividesTrans(k, lhs.divisibility, v[0]);
    DividesSum(k, v[0], s);
    OneGroup(0, n);
    FirstDivisible(w, rhs);
    DividesTrans(k, rhs.divisibility, w[0]);
  }

  lemma FirstDivisible(w: seq<int>, f: Info)
    requires Holds(w, f) && |w| > 0
    ensures Divides(f.divisibility, w[0])
  {
    assert GroupStart(0, f.contiguity) == 0;
    assert Divides(f.divisibility, w[GroupStart(0, f.contiguity)]);
  }

  ghost predicate Operands(v: seq<int>, w: seq<int>) {
    |v| == |w| && forall i :: 0 <= i < |v| ==> v[i] >= 0 && w[i] > 0
  }

  function Quotients(v: seq<int>, w: seq<int>): (q: seq<int>)
    requires Operands(v, w)
    ensures |q| == |v| && forall i :: 0 <= i < |q| ==> q[i] == v[i] / w[i]
  {
    seq(|v|, i requires 0 <= i < |v| => v[i] / w[i])
  }

  function Remainders(v: seq<int>, w: seq<int>): (q: seq<int>)
    requires Operands(v, w)
    ensures |q| == |v| && forall i :: 0 <= i < |q| ==> q[i] == v[i] % w[i]
  {
    seq(|v|, i requires 0 <= i < |v| => v[i] % w[i])
  }

  lemma BothConstant(v: seq<int>, w: seq<int>, lhs: Info, rhs: Info)
    requires |v| == |w| && Holds(v, lhs) && Holds(w, rhs)
    ensures var k := Gcd(lhs.constancy, rhs.constancy); k > 0 && ConstantBy(v, k) && ConstantBy(w, k)
  {
    hide Divides;
    GcdDivides(lhs.constancy, rhs.constancy);
    var k := Gcd(lhs.constancy, rhs.constancy);
    ConstantByDivisor(v, k, lhs.constancy);
    ConstantByDivisor(w, k, rhs.constancy);
  }

  /** The quotients are constant on the groups that the division visitor reports. */
  lemma DivIsConstant(v: seq<int>, w: seq<int>, lhs: Info, rhs: Info)
    requires Operands(v, w) && Holds(v, lhs) && Holds(w, rhs)
    ensures DivConstancy(lhs, rhs, |v|) > 0 && ConstantBy(Quotients(v, w), DivConstancy(lhs, rhs, |v|))
  {
    hide Divides, Holds, ConstantBy;
    BothConstant(v, w, lhs, rhs);
    QuotientsConstant(v, w, Gcd(lhs.constancy, rhs.constancy));
    if lhs.contiguity == |v| && rhs.constancy == |v| {
      QuotientsOfRun(v, w, lhs, rhs);
    }
  }

  lemma QuotientsConstant(v: seq<int>, w: seq<int>, k: nat)
    requires Operands(v, w) && k > 0 && ConstantBy(v, k) && ConstantBy(w, k)
    ensures ConstantBy(Quotients(v, w), k)
  {
  }

  lemma QuotientsOfRun(v: seq<int>, w: seq<int>, lhs: Info, rhs: Info)
    requires Operands(v, w) && Holds(v, lhs) && Holds(w, rhs) && lhs.contiguity == |v| && rhs.constancy == |v|
    ensures var k := Hint(lhs.contiguity, lhs, rhs); k > 0 && ConstantBy(Quotients(v, w), k)
  {
    hide Divides, GroupStart;
    var k := Hint(lhs.contiguity, lhs, rhs);
    HintDivides(lhs.contiguity, lhs, rhs);
    forall i | 0 <= i < |v| ensures Quotients(v, w)[i] == Quotients(v, w)[GroupStart(i, k)] {
      GroupBetween(v, w, lhs, rhs, i);
      var s := GroupStart(i, k);
      BetweenMultiples(k, v[s], i - s, w[0]);
    }
  }

  /** The remainders are contiguous on the groups that the remainder visitor reports. */
  lemma RemIsContiguous(v: seq<int>, w: seq<int>, lhs: Info, rhs: Info)
    requires Operands(v, w) && Holds(v, lhs) && Holds(w, rhs)
    ensures RemContiguity(lhs, rhs, |v|) > 0 && ContiguousBy(Remainders(v, w), RemContiguity(lhs, rhs, |v|))
  {
    hide Divides, GroupStart;
    var r := Remainders(v, w);
    var k := RemContiguity(lhs, rhs, |v|);
    forall i | 0 <= i < |v| ensures r[i] == r[GroupStart(i, k)] + (i - GroupStart(i, k)) {
      if k == 1 {
        assert GroupStart(i, 1) == i;
      } else {
        HintDivides(lhs.contiguity, lhs, rhs);
        GroupBetween(v, w, lhs, rhs, i);
        var s := GroupStart(i, k);
        BetweenMultiples(k, v[s], i - s, w[0]);
      }
    }
  }

  datatype Predicate = Eq | Ne | Lt | Le | Gt | Ge

  function Compare(p: Predicate, a: int, b: int): bool {
    match p
    case Eq => a == b
    case Ne => a != b
    case Lt => a < b
    case Le => a <= b
    case Gt => a > b
    case Ge => a >= b
  }

  // The constancy that the comparison visitor reports.
  function CmpConstancy(p: Predicate, lhs: Info, rhs: Info, n: nat): nat {
    if lhs.constant.Some? && rhs.constant.Some? then lhs.constancy
    else
      var c := Gcd(lhs.constancy, rhs.constancy);
      if (p.Gt? || p.Le?) && lhs.constancy == n then Max(c, Hint(rhs.contiguity, lhs, rhs))
      else if (p.Lt? || p.Ge?) && rhs.constancy == n then Max(c, Hint(lhs.contiguity, lhs, rhs))
      else c
  }

  function Comparisons(p: Predicate, v: seq<int>, w: seq<int>): (q: seq<bool>)
    requires |v| == |w|
    ensures |q| == |v| && forall i :: 0 <= i < |q| ==> q[i] == Compare(p, v[i], w[i])
  {
    seq(|v|, i requires 0 <= i < |v| => Compare(p, v[i], w[i]))
  }

  // One side constant, the other contiguous in groups.
  lemma ConstantAgainstRun(a: seq<int>, v: seq<int>, fa: Info, fv: Info, k: nat, i: nat)
    requires |a| == |v| && Holds(a, fa) && Holds(v, fv) && fa.constancy == |a| && i < |v|
    requires k > 0 && Divides(k, fv.contiguity) && Divides(k, fa.divisibility) && Divides(k, fv.divisibility)
    ensures var s := GroupStart(i, k);
            && Divides(k, v[s]) && Divides(k, a[0]) && v[i] == v[s] + (i - s) && a[i] == a[s] == a[0]
  {
    hide Divides;
    var s := GroupStart(i, k);
    var t := GroupStart(i, fv.contiguity);
    GroupInGroup(i, k, fv.contiguity);
    OneGroup(i, |a|);
    OneGroup(s, |a|);
    assert v[i] == v[t] + (i - t) && v[s] == v[t] + (s - t);
    assert Divides(fv.divisibility, v[t]);
    DividesTrans(k, fv.divisibility, v[t]);
    DividesSum(k, s, t);
    DividesSum(k, v[t], s - t);
    FirstDivisible(a, fa);
    DividesTrans(k, fa.divisibility, a[0]);
  }

  lemma ComparisonsOfRun(p: Predicate, v: seq<int>, w: seq<int>, lhs: Info, rhs: Info)
    requires |v| == |w| && Holds(v, lhs) && Holds(w, rhs)
    requires ((p.Gt? || p.Le?) && lhs.constancy == |v|) || ((p.Lt? || p.Ge?) && rhs.constancy == |v|)
    ensures var k := Hint(if p.Gt? || p.Le? then rhs.contiguity else lhs.contiguity, lhs, rhs);
            k > 0 && ConstantBy(Comparisons(p, v, w), k)
  {
    hide Divides, GroupStart;
    var c := if p.Gt? || p.Le? then rhs.contiguity else lhs.contiguity;
    var k := Hint(c, lhs, rhs);
    HintDivides(c, lhs, rhs);
    forall i | 0 <= i < |v| ensures Comparisons(p, v, w)[i] == Comparisons(p, v, w)[GroupStart(i, k)] {
      var s := GroupStart(i, k);
      if p.Gt? || p.Le? {
        ConstantAgainstRun(v, w, lhs, rhs, k, i);
        BetweenComparisons(k, w[s], i - s, v[0]);
      } else {
        ConstantAgainstRun(w, v, rhs, lhs, k, i);
        BetweenComparisons(k, v[s], i - s, w[0]);
      }
    }
  }

  /** The results of a comparison are constant on the groups that its visitor reports. */
  lemma CmpIsConstant(p: Predicate, v: seq<int>, w: seq<int>, lhs: Info, rhs: Info)
    requires |v| == |w| && Holds(v, lhs) && Holds(w, rhs)
    ensures CmpConstancy(p, lhs, rhs, |v|) > 0 && ConstantBy(Comparisons(p, v, w), CmpConstancy(p, lhs, rhs, |v|))
  {
    hide Divides, GroupStart;
    BothConstant(v, w, lhs, rhs);
    if ((p.Gt? || p.Le?) && lhs.constancy == |v|) || ((p.Lt? || p.Ge?) && rhs.constancy == |v|) {
      ComparisonsOfRun(p, v, w, lhs, rhs);
    }
  }

  // ---------- mul ----------

  // highestPowOf2Divisor(0)
  const MAX_DIVISOR: nat := 0x4000_0000_0000_0000

  function MultiplyDivisor(lhs: nat, rhs: nat): nat
    requires rhs > 0
  {
    if lhs > MAX_DIVISOR / rhs then MAX_DIVISOR else lhs * rhs
  }

  ghost predicate IsPow2(d: nat) {
    exists n: nat :: d == Pow2(n)
  }

  lemma Pow2Divides(a: nat, b: nat)
    requires a <= b
    ensures Divides(Pow2(a), Pow2(b))
  {
    Pow2Adds(b - a, a);
    DividesBy(Pow2(a), Pow2(b - a));
  }

  lemma Pow2Monotone(a: nat, b: nat)
    requires Pow2(a) <= Pow2(b)
    ensures a <= b
  {
    if b < a {
      Pow2Increases(b, a);
    }
  }

  lemma MaxIsPow2()
    ensures MAX_DIVISOR == Pow2(62)
  {
    hide Pow2;
    SmallPowers();
    Pow2Adds(8, 8);
    Pow2Adds(16, 16);
    Pow2Adds(32, 16);
    Pow2Adds(48, 8);
    Pow2Adds(56, 6);
  }

  lemma SmallPowers()
    ensures Pow2(8) == 256 && Pow2(6) == 64
  {
    assert Pow2(4) == 16;
  }

  lemma QuotientExceeded(lhs: nat, rhs: nat, m: nat)
    requires rhs > 0 && lhs > m / rhs
    ensures lhs * rhs > m
  {
    DivisionSplits(m, rhs);
    assert lhs * rhs >= (m / rhs + 1) * rhs;
    assert (m / rhs + 1) * rhs == m / rhs * rhs + rhs;
  }

  /** Saturation is harmless: powers of two that divide the factors, multiplied or cut off at the
      largest representable one, divide the product. */
  lemma DivisorOfProduct(dl: nat, dr: nat, x: int, y: int)
    requires IsPow2(dl) && IsPow2(dr) && Divides(dl, x) && Divides(dr, y)
    ensures IsPow2(MultiplyDivisor(dl, dr)) && Divides(MultiplyDivisor(dl, dr), x * y)
  {
    var a: nat :| dl == Pow2(a);
    var b: nat :| dr == Pow2(b);
    Pow2Adds(a, b);
    MaxIsPow2();
    ProductDivides(dl, dr, x, y);
    if dl > MAX_DIVISOR / dr {
      QuotientExceeded(dl, dr, MAX_DIVISOR);
      Pow2Monotone(62, a + b);
      Pow2Divides(62, a + b);
      DividesTrans(MAX_DIVISOR, dl * dr, x * y);
    }
  }

  lemma ProductDivides(dl: nat, dr: nat, x: int, y: int)
    requires Divides(dl, x) && Divides(dr, y)
    ensures Divides(dl * dr, x * y)
  {
    var p: int :| x == p * dl;
    var q: int :| y == q * dr;
    Interchange(p, dl, q, dr);
    DividesBy(dl * dr, p * q);
  }

  lemma Interchange(p: int, a: int, q: int, b: int)
    ensures (p * a) * (q * b) == (p * q) * (a * b)
  {
    assert (p * a) * (q * b) == p * (a * (q * b));
    assert a * (q * b) == q * (a * b);
  }

  function MulContiguity(lhs: Info, rhs: Info): nat {
    Max(if rhs.constant == Some(1) then lhs.contiguity else 1, if lhs.constant == Some(1) then rhs.contiguity else 1)
  }

  // The divisibility of one factor, dropped to 1 if it is contiguous and the other is not 1.
  function FactorDivisibility(f: Info, other: Info): nat {
    if f.contiguity > 1 && other.constant != Some(1) then 1 else f.divisibility
  }

  function MulDivisibility(lhs: Info, rhs: Info): nat
    requires lhs.Valid() && rhs.Valid()
  {
    MultiplyDivisor(FactorDivisibility(lhs, rhs), FactorDivisibility(rhs, lhs))
  }

  function Products(v: seq<int>, w: seq<int>): (q: seq<int>)
    requires |v| == |w|
    ensures |q| == |v| && forall i :: 0 <= i < |q| ==> q[i] == v[i] * w[i]
  {
    seq(|v|, i requires 0 <= i < |v| => v[i] * w[i])
  }

  lemma FactorAt(v: seq<int>, w: seq<int>, f: Info, other: Info, s: nat)
    requires |v| == |w| && Holds(v, f) && Holds(w, other) && s < |v|
    requires MulContiguity(f, other) > 0 && GroupStart(s, MulContiguity(f, other)) == s
    ensures Divides(FactorDivisibility(f, other), v[s])
  {
    if f.contiguity > 1 && other.constant != Some(1) {
      assert v[s] == v[s] * 1;
    } else if f.contiguity == 1 {
      assert GroupStart(s, 1) == s;
    } else if f.constant == Some(1) {
      FirstDivisible(v, f);
    } else {
      assert GroupStart(s, f.contiguity) == s;
    }
  }

  lemma SwapFactors(a: Info, b: Info)
    ensures MulContiguity(a, b) == MulContiguity(b, a)
  {
  }

  lemma StartIsStart(i: nat, k: nat)
    requires k > 0
    ensures GroupStart(GroupStart(i, k), k) == GroupStart(i, k)
  {
    DivModUnique(i / k * k, k, i / k, 0);
  }

  /** The divisor that the multiplication visitor reports divides the product at the start of
      every group of the contiguity it reports. */
  lemma MulIsDivisible(v: seq<int>, w: seq<int>, lhs: Info, rhs: Info)
    requires |v| == |w| && Holds(v, lhs) && Holds(w, rhs) && IsPow2(lhs.divisibility) && IsPow2(rhs.divisibility)
    ensures MulContiguity(lhs, rhs) > 0
    ensures StartsDivisibleBy(Products(v, w), MulContiguity(lhs, rhs), MulDivisibility(lhs, rhs))
  {
    hide Divides, IsPow2, MultiplyDivisor, GroupStart;
    var k := MulContiguity(lhs, rhs);
    OneIsPow2();
    forall i | 0 <= i < |v| ensures Divides(MulDivisibility(lhs, rhs), Products(v, w)[GroupStart(i, k)]) {
      var s := GroupStart(i, k);
      StartIsStart(i, k);
      SwapFactors(lhs, rhs);
      FactorAt(v, w, lhs, rhs, s);
      FactorAt(w, v, rhs, lhs, s);
      DivisorOfProduct(FactorDivisibility(lhs, rhs), FactorDivisibility(rhs, lhs), v[s], w[s]);
    }
  }

  lemma OneIsPow2()
    ensures IsPow2(1)
  {
    assert Pow2(0) == 1;
  }
}
