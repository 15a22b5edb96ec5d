/** Divisors, and the extended Euclidean algorithm of lib/Analysis/AxisInfo.cpp:17-40. */
module Divisibility {
  import opened Arith

  ghost predicate Divides(d: int, x: int) {
    exists q: int :: x == q * d
  }

  lemma DividesBy(d: int, q: int)
    ensures Divides(d, q * d)
  {
  }

  lemma DividesSum(d: int, x: int, y: int)
    requires Divides(d, x) && Divides(d, y)
    ensures Divides(d, x + y) && Divides(d, x - y)
  {
    var p: int :| x == p * d;
    var q: int :| y == q * d;
    assert x + y == (p + q) * d && x - y == (p - q) * d;
  }

  lemma DividesProduct(d: int, x: int, k: int)
    requires Divides(d, x)
    ensures Divides(d, k * x) && Divides(d, x * k)
  {
    var p: int :| x == p * d;
    Regroup(k, p, d);
    assert k * x == (k * p) * d && x * k == (k * p) * d;
  }

  lemma Regroup(k: int, p: int, d: int)
    ensures k * (p * d) == (k * p) * d && (p * d) * k == (k * p) * d
  {
  }

  lemma DividesTrans(d: int, e: int, x: int)
    requires Divides(d, e) && Divides(e, x)
    ensures Divides(d, x)
  {
    var q: int :| x == q * e;
    DividesProduct(d, e, q);
  }

  // ---------- gcd ----------

  /** gcdImpl: besides the result, the coefficients x and y with a * x + b * y == gcd. */
  function GcdImpl(a: nat, b: nat): (r: (nat, int, int))
    requires a > 0 || b > 0
    ensures a * r.1 + b * r.2 == r.0
    decreases a
  {
    if a == 0 then (b, 0, 1)
    else
      var t := GcdImpl(b % a, a);
      BackSubstitute(a, b, t.1, t.2);
      (t.0, t.2 - b / a * t.1, t.1)
  }

  lemma BackSubstitute(a: nat, b: nat, x: int, y: int)
    requires a > 0
    ensures a * (y - b / a * x) + b * x == b % a * x + a * y
  {
    var q := b / a;
    assert b == q * a + b % a;
    assert (q * a + b % a) * x == q * a * x + b % a * x;
    assert a * (y - q * x) == a * y - a * (q * x);
    assert a * (q * x) == q * a * x;
  }

  function Gcd(a: nat, b: nat): nat {
    if a == 0 then b else if b == 0 then a else GcdImpl(a, b).0
  }

  lemma {:induction false} GcdImplDivides(a: nat, b: nat)
    requires a > 0 || b > 0
    ensures GcdImpl(a, b).0 > 0 && Divides(GcdImpl(a, b).0, a) && Divides(GcdImpl(a, b).0, b)
    decreases a
  {
    var g := GcdImpl(a, b).0;
    if a == 0 {
      assert b == 1 * g && a == 0 * g;
    } else {
      GcdImplDivides(b % a, a);
      DividesProduct(g, a, b / a);
      DividesSum(g, b / a * a, b % a);
    }
  }

  /** `gcd` is the greatest common divisor: it divides both, and whatever divides both divides it. */
  lemma GcdIsGreatest(a: nat, b: nat, d: int)
    requires a > 0 || b > 0
    ensures Gcd(a, b) > 0 && Divides(Gcd(a, b), a) && Divides(Gcd(a, b), b)
    ensures Divides(d, a) && Divides(d, b) ==> Divides(d, Gcd(a, b))
  {
    var g := Gcd(a, b);
    if a == 0 || b == 0 {
      assert g == 1 * g && 0 == 0 * g;
    } else {
      GcdImplDivides(a, b);
      if Divides(d, a) && Divides(d, b) {
        var r := GcdImpl(a, b);
        DividesProduct(d, a, r.1);
        DividesProduct(d, b, r.2);
        DividesSum(d, a * r.1, b * r.2);
      }
    }
  }

  lemma GcdDivides(a: nat, b: nat)
    requires a > 0 && b > 0
    ensures Gcd(a, b) > 0 && Divides(Gcd(a, b), a) && Divides(Gcd(a, b), b)
  {
    GcdIsGreatest(a, b, 1);
  }

  // A multiple of k that is at most i is at most the last one.
  lemma MultipleBelow(t: nat, s: nat, i: nat, k: nat)
    requires k > 0 && Divides(k, t) && Divides(k, s) && t <= i && s <= i < s + k
    ensures t <= s
  {
    var p: int :| t == p * k;
    var q: int :| s == q * k;
    assert t - s == (p - q) * k;
    Multiples(p - q, k);
  }
}
