/** Non-negative machine integers as bit strings, lowest bit first. */
module Words {
  import opened F2Matrix
  import opened Arith

  function Pow2(n: nat): (p: nat)
    ensures p > 0
  {
    if n == 0 then 1 else 2 * Pow2(n - 1)
  }

  lemma {:induction false} Pow2Increases(a: nat, b: nat)
    requires a < b
    ensures Pow2(a) < Pow2(b)
  {
    if a + 1 < b {
      Pow2Increases(a, b - 1);
    }
  }

  lemma {:induction false} Pow2Adds(a: nat, b: nat)
    ensures Pow2(a + b) == Pow2(a) * Pow2(b)
  {
    if a > 0 {
      Pow2Adds(a - 1, b);
      DoubleProduct(Pow2(a - 1), Pow2(b));
    }
  }

  lemma DoubleProduct(p: nat, q: nat)
    ensures 2 * p * q == 2 * (p * q)
  {
  }

  // The n lowest bits of v.
  function ToBits(v: nat, n: nat): (b: Bits)
    ensures |b| == n
  {
    if n == 0 then [] else [v % 2 == 1] + ToBits(v / 2, n - 1)
  }

  function FromBits(b: Bits): (v: nat)
    ensures v < Pow2(|b|)
  {
    if |b| == 0 then 0 else (if b[0] then 1 else 0) + 2 * FromBits(b[1..])
  }

  // The `^` of the source on non-negative integers.
  function XorInt(a: nat, b: nat): nat {
    if a == 0 then b else if b == 0 then a
    else (if a % 2 != b % 2 then 1 else 0) + 2 * XorInt(a / 2, b / 2)
  }

  lemma {:induction false} FromToBits(v: nat, n: nat)
    requires v < Pow2(n)
    ensures FromBits(ToBits(v, n)) == v
  {
    if n > 0 {
      FromToBits(v / 2, n - 1);
      assert ToBits(v, n)[1..] == ToBits(v / 2, n - 1);
    }
  }

  lemma {:induction false} ToFromBits(b: Bits)
    ensures ToBits(FromBits(b), |b|) == b
  {
    if |b| > 0 {
      ToFromBits(b[1..]);
    }
  }

  lemma {:induction false} ToBitsZero(n: nat)
    ensures ToBits(0, n) == Zero(n)
  {
    if n > 0 {
      ToBitsZero(n - 1);
    }
  }

  lemma {:induction false} ToBitsXor(a: nat, b: nat, n: nat)
    ensures ToBits(XorInt(a, b), n) == Xor(ToBits(a, n), ToBits(b, n))
  {
    if n > 0 {
      if a == 0 {
        ToBitsZero(n);
      } else if b == 0 {
        ToBitsZero(n);
      } else {
        ToBitsXor(a / 2, b / 2, n - 1);
        XorIntParts(a, b);
        hide XorInt;
        var x := XorInt(a, b);
        assert (x % 2 == 1) == ((a % 2 == 1) != (b % 2 == 1));
      }
    }
  }

  lemma {:induction false} XorIntBound(a: nat, b: nat, n: nat)
    requires a < Pow2(n) && b < Pow2(n)
    ensures XorInt(a, b) < Pow2(n)
  {
    if a != 0 && b != 0 {
      XorIntBound(a / 2, b / 2, n - 1);
    }
  }

  // Integers below 2^n that agree on the n lowest bits are equal.
  lemma BitsDecide(a: nat, b: nat, n: nat)
    requires a < Pow2(n) && b < Pow2(n) && ToBits(a, n) == ToBits(b, n)
    ensures a == b
  {
    FromToBits(a, n);
    FromToBits(b, n);
  }

  lemma {:induction false} XorIntZero(a: nat)
    ensures XorInt(a, 0) == a && XorInt(0, a) == a
  {
  }

  lemma {:induction false} XorIntAssoc(a: nat, b: nat, c: nat)
    ensures XorInt(XorInt(a, b), c) == XorInt(a, XorInt(b, c))
    decreases a + b + c
  {
    if a != 0 && b != 0 && c != 0 {
      XorIntAssoc(a / 2, b / 2, c / 2);
      XorIntParts(a, b);
      XorIntParts(b, c);
      XorIntParts(XorInt(a, b), c);
      XorIntParts(a, XorInt(b, c));
    }
  }

  lemma {:induction false} XorIntComm(a: nat, b: nat)
    ensures XorInt(a, b) == XorInt(b, a)
  {
    if a != 0 && b != 0 {
      XorIntComm(a / 2, b / 2);
    }
  }

  // (a ^ b) ^ (c ^ d) == (a ^ c) ^ (b ^ d)
  lemma XorExchange(a: nat, b: nat, c: nat, d: nat)
    ensures XorInt(XorInt(a, b), XorInt(c, d)) == XorInt(XorInt(a, c), XorInt(b, d))
  {
    XorIntAssoc(a, b, XorInt(c, d));
    XorIntAssoc(b, c, d);
    XorIntComm(b, c);
    XorIntAssoc(c, b, d);
    XorIntAssoc(a, c, XorInt(b, d));
  }

  lemma {:induction false} XorIntParts(a: nat, b: nat)
    ensures XorInt(a, b) / 2 == XorInt(a / 2, b / 2)
    ensures XorInt(a, b) % 2 == (if a % 2 != b % 2 then 1 else 0)
  {
  }

  lemma Double(f: nat, p: nat, low: nat, bit: nat)
    ensures bit + 2 * (f * p + low) == f * (2 * p) + (bit + 2 * low)
  {
    assert f * (2 * p) == 2 * (f * p);
  }

  lemma {:induction false} FromBitsAppend(a: Bits, b: Bits)
    ensures FromBits(a + b) == FromBits(b) * Pow2(|a|) + FromBits(a)
  {
    if |a| == 0 {
      assert a + b == b;
    } else {
      var c := a + b;
      assert c[1..] == a[1..] + b && c[0] == a[0];
      FromBitsAppend(a[1..], b);
      Double(FromBits(b), Pow2(|a| - 1), FromBits(a[1..]), if a[0] then 1 else 0);
    }
  }

  // One more bit.
  lemma FromBitsPrefix(b: Bits, i: nat)
    requires i < |b|
    ensures FromBits(b[..i + 1]) == FromBits(b[..i]) + (if b[i] then Pow2(i) else 0)
  {
    hide Pow2;
    assert b[..i + 1] == b[..i] + [b[i]];
    FromBitsAppend(b[..i], [b[i]]);
    assert [b[i]][1..] == [] && FromBits([b[i]]) == if b[i] then 1 else 0;
  }

  // Zeros at the end add nothing.
  lemma FromBitsLow(b: Bits, n: nat)
    requires n <= |b| && forall i :: n <= i < |b| ==> !b[i]
    ensures FromBits(b[..n]) == FromBits(b)
  {
    hide *;
    ZeroTail(b, n);
    FromBitsAppend(b[..n], Zero(|b| - n));
    ZeroFromBits(|b| - n);
    assert 0 * Pow2(n) == 0;
  }

  lemma ZeroTail(b: Bits, n: nat)
    requires n <= |b| && forall i :: n <= i < |b| ==> !b[i]
    ensures b == b[..n] + Zero(|b| - n)
  {
  }

  lemma {:induction false} ZeroFromBits(n: nat)
    ensures FromBits(Zero(n)) == 0
  {
    if n > 0 {
      assert Zero(n)[1..] == Zero(n - 1);
      ZeroFromBits(n - 1);
    }
  }

  // `v % 2^n` keeps the n low bits, `v / 2^n` the others.
  lemma SplitBits(b: Bits, n: nat)
    requires n <= |b|
    ensures FromBits(b) % Pow2(n) == FromBits(b[..n])
    ensures FromBits(b) / Pow2(n) == FromBits(b[n..])
  {
    var low, high := b[..n], b[n..];
    assert b == low + high;
    FromBitsAppend(low, high);
    DivModUnique(FromBits(b), Pow2(n), FromBits(high), FromBits(low));
  }
}
