/** Facts about products and quotients of naturals. */
module Arith {
  function Min(a: nat, b: nat): nat {
    if a < b then a else b
  }

  function Max(a: nat, b: nat): nat {
    if a < b then b else a
  }

  lemma Multiples(k: int, d: nat)
    ensures k >= 1 ==> k * d >= d
    ensures k <= -1 ==> k * d <= -(d as int)
  {
    if k >= 1 {
      assert k * d == d + (k - 1) * d;
    }
    if k <= -1 {
      assert k * d == -(d as int) - (-k - 1) * d;
    }
  }

  lemma DivModUnique(v: nat, d: nat, q: nat, r: nat)
    requires d > 0 && r < d && v == q * d + r
    ensures v / d == q && v % d == r
  {
    var k := v / d - q;
    assert k * d == (v / d) * d - q * d;
    assert (v / d) * d == v - v % d;
    Multiples(k, d);
  }

  function Quot(v: nat, p: nat): nat
    requires p > 0
  {
    v / p
  }

  // tl.cdiv
  function Cdiv(a: nat, b: nat): nat
    requires b > 0
  {
    (a + b - 1) / b
  }

  lemma CdivReaches(k: nat, b: nat)
    requires b > 0
    ensures Cdiv(k, b) * b >= k && (Cdiv(k, b) > 0 ==> (Cdiv(k, b) - 1) * b < k)
  {
    var q := Cdiv(k, b);
    assert q * b <= k + b - 1 < q * b + b;
    if q > 0 {
      assert (q - 1) * b == q * b - b;
    }
  }

  lemma MultipleMod(q: nat, a: nat)
    requires a > 0
    ensures q * a % a == 0 && q * a / a == q
  {
    DivModUnique(q * a, a, q, 0);
  }
}
