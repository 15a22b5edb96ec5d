/** The division and remainder hints of lib/Analysis/AxisInfo.cpp:396-523 for signed operations,
which truncate toward zero: exactly when they hold. */
module SignedDivision {
  import opened Arith
  import opened Divisibility
  import opened AxisInfo
  import opened Wrappers

  function Abs(a: int): nat {
    if a < 0 then -a else a
  }

  // arith.divsi and arith.remsi
  function TruncDiv(a: int, b: int): int
    requires b != 0
  {
    var q := Abs(a) / Abs(b);
    if (a < 0) == (b < 0) then q else -q
  }

  function TruncRem(a: int, b: int): int
    requires b != 0
  {
    var r := Abs(a) % Abs(b);
    if a < 0 then -r else r
  }

  lemma TruncSplits(a: int, b: int)
    requires b != 0
    ensures a == TruncDiv(a, b) * b + TruncRem(a, b)
    ensures -b < TruncRem(a, b) < b || b < TruncRem(a, b) < -b
    ensures (a >= 0 ==> TruncRem(a, b) >= 0) && (a <= 0 ==> TruncRem(a, b) <= 0)
  {
    var x: int, y: int, q: int := Abs(a), Abs(b), Abs(a) / Abs(b);
    assert x == q * y + x % y;
    assert (-q) * y == -(q * y) && q * (-y) == -(q * y) && (-q) * (-y) == q * y;
  }

  ghost predicate NonZero(w: seq<int>) {
    forall i :: 0 <= i < |w| ==> w[i] != 0
  }

  function Quotients(v: seq<int>, w: seq<int>): (q: seq<int>)
    requires |v| == |w| && NonZero(w)
    ensures |q| == |v| && forall i :: 0 <= i < |q| ==> q[i] == TruncDiv(v[i], w[i])
  {
    seq(|v|, i requires 0 <= i < |v| => TruncDiv(v[i], w[i]))
  }

  function Remainders(v: seq<int>, w: seq<int>): (q: seq<int>)
    requires |v| == |w| && NonZero(w)
    ensures |q| == |v| && forall i :: 0 <= i < |q| ==> q[i] == TruncRem(v[i], w[i])
  {
    seq(|v|, i requires 0 <= i < |v| => TruncRem(v[i], w[i]))
  }

  // ---------- one group ----------

  // Counting down from a multiple x of k: the quotient drops at once if x is a multiple of r, and
  // otherwise not before the next multiple of k.
  lemma BelowMultiple(k: nat, x: nat, j: nat, r: nat)
    requires k > 0 && Divides(k, x) && Divides(k, r) && r > 0 && 0 < x && j < k
    ensures j < x
    ensures x % r != 0 ==> (x - j) / r == x / r && (x - j) % r == x % r - j
    ensures x % r == 0 && j > 0 ==> (x - j) / r == x / r - 1 && (x - j) % r == r - j
  {
    var m: int :| x == m * k;
    Multiples(m, k);
    assert x >= k;
    var y: nat := x - k;
    assert Divides(k, y) by {
      assert y == (m - 1) * k;
    }
    var q, e := x / r, x % r;
    assert x == q * r + e;
    MultipleRemainder(k, x, r);
    if e != 0 {
      var p: int :| e == p * k;
      Multiples(p, k);
      DivModUnique(x - j, r, q, e - j);
    } else if j > 0 {
      var p: int :| r == p * k;
      Multiples(p, k);
      Multiples(q, r);
      assert x - j == (q - 1) * r + (r - j);
      assert q >= 1;
      DivModUnique(x - j, r, q - 1, r - j);
    }
  }

  lemma MultipleRemainder(k: nat, x: nat, r: nat)
    requires k > 0 && Divides(k, x) && Divides(k, r) && r > 0
    ensures Divides(k, x % r)
  {
    var m: int :| x == m * k;
    var p: int :| r == p * k;
    var q := x / r;
    assert x == q * r + x % r;
    assert q * r == q * p * k;
    assert x % r == (m - q * p) * k;
  }

  // The j-th of k values from a multiple of k on, divided by a multiple of k.
  lemma TruncInGroup(k: nat, x: int, j: nat, b: int)
    requires k > 0 && Divides(k, x) && Divides(k, b) && b != 0 && j < k
    ensures x >= 0 || Abs(x) % Abs(b) != 0 ==> TruncDiv(x + j, b) == TruncDiv(x, b) && TruncRem(x + j, b) == TruncRem(x, b) + j
    ensures x < 0 && Abs(x) % Abs(b) == 0 && j > 0 ==> TruncDiv(x + j, b) != TruncDiv(x, b) && TruncRem(x + j, b) != TruncRem(x, b) + j
  {
    hide Divides;
    DividesAbs(k, x);
    DividesAbs(k, b);
    if x >= 0 {
      BetweenMultiples(k, x, j, Abs(b));
    } else {
      BelowMultiple(k, Abs(x), j, Abs(b));
      assert Abs(x + j) == Abs(x) - j && x + j < 0;
    }
  }

  lemma DividesAbs(k: nat, x: int)
    requires Divides(k, x)
    ensures Divides(k, Abs(x))
  {
    var m: int :| x == m * k;
    assert -x == (-m) * k;
  }

  // ---------- the hints ----------

  /** Index s starts a group of k at a negative multiple of the divisor. */
  ghost predicate NegativeMultiple(v: seq<int>, w: seq<int>, k: nat, s: nat)
    requires |v| == |w| && NonZero(w) && k > 0
  {
    s < |v| && GroupStart(s, k) == s && v[s] < 0 && Abs(v[s]) % Abs(w[s]) == 0
  }

  ghost predicate NoNegativeMultiple(v: seq<int>, w: seq<int>, k: nat)
    requires |v| == |w| && NonZero(w) && k > 0
  {
    forall s :: 0 <= s < |v| ==> !NegativeMultiple(v, w, k, s)
  }

  lemma StartOfStart(i: nat, k: nat)
    requires k > 0
    ensures GroupStart(GroupStart(i, k), k) == GroupStart(i, k)
  {
    MultipleMod(i / k, k);
  }

  // One value of a group against the group's first.
  lemma InRun(v: seq<int>, w: seq<int>, lhs: Info, rhs: Info, i: nat)
    requires |v| == |w| && NonZero(w) && Holds(v, lhs) && Holds(w, rhs) && i < |v|
    requires lhs.contiguity == |v| && rhs.constancy == |v|
    ensures Hint(lhs.contiguity, lhs, rhs) > 0
    ensures var k := Hint(lhs.contiguity, lhs, rhs); var s := GroupStart(i, k);
            if NegativeMultiple(v, w, k, s) then
              i > s ==> Quotients(v, w)[i] != Quotients(v, w)[s] && Remainders(v, w)[i] != Remainders(v, w)[s] + (i - s)
            else Quotients(v, w)[i] == Quotients(v, w)[s] && Remainders(v, w)[i] == Remainders(v, w)[s] + (i - s)
  {
    hide Divides, GroupStart, TruncDiv, TruncRem;
    var k := Hint(lhs.contiguity, lhs, rhs);
    GroupBetween(v, w, lhs, rhs, i);
    var s := GroupStart(i, k);
    StartOfStart(i, k);
    TruncInGroup(k, v[s], i - s, w[0]);
  }

  // A group that starts at a negative multiple has a second value.
  lemma SecondOfGroup(v: seq<int>, w: seq<int>, lhs: Info, rhs: Info, s: nat)
    requires |v| == |w| && Holds(v, lhs) && Holds(w, rhs) && s < |v| && lhs.contiguity == |v|
    requires var k := Hint(lhs.contiguity, lhs, rhs); k > 1 && GroupStart(s, k) == s
    ensures var k := Hint(lhs.contiguity, lhs, rhs); s + 1 < |v| && GroupStart(s + 1, k) == s
  {
    var k := Hint(lhs.contiguity, lhs, rhs);
    HintDivides(lhs.contiguity, lhs, rhs);
    var p: int :| |v| == p * k;
    var q := s / k;
    assert s == q * k;
    assert |v| - s == (p - q) * k;
    Multiples(p - q, k);
    DivModUnique(s + 1, k, q, 1);
  }

  /** The quotients are constant on the groups that the division visitor reports exactly if the groups
      are those of constant operands, or none starts at a negative multiple of the divisor. */
  lemma DivIsConstantIff(v: seq<int>, w: seq<int>, lhs: Info, rhs: Info)
    requires |v| == |w| && NonZero(w) && Holds(v, lhs) && Holds(w, rhs)
    ensures DivConstancy(lhs, rhs, |v|) > 0
    ensures ConstantBy(Quotients(v, w), DivConstancy(lhs, rhs, |v|)) <==>
              DivConstancy(lhs, rhs, |v|) == Gcd(lhs.constancy, rhs.constancy) || NoNegativeMultiple(v, w, DivConstancy(lhs, rhs, |v|))
  {
    hide Divides, Holds, GroupStart, TruncDiv, TruncRem, NegativeMultiple;
    BothConstant(v, w, lhs, rhs);
    var c, k := Gcd(lhs.constancy, rhs.constancy), DivConstancy(lhs, rhs, |v|);
    if k == c {
      assert ConstantBy(Quotients(v, w), c);
    } else {
      if NoNegativeMultiple(v, w, k) {
        forall i | 0 <= i < |v| ensures Quotients(v, w)[i] == Quotients(v, w)[GroupStart(i, k)] {
          InRun(v, w, lhs, rhs, i);
        }
      }
      forall s | 0 <= s < |v| && NegativeMultiple(v, w, k, s) ensures !ConstantBy(Quotients(v, w), k) {
        FailsAt(v, w, lhs, rhs, s);
      }
    }
  }

  lemma FailsAt(v: seq<int>, w: seq<int>, lhs: Info, rhs: Info, s: nat)
    requires |v| == |w| && NonZero(w) && Holds(v, lhs) && Holds(w, rhs) && lhs.contiguity == |v| && rhs.constancy == |v|
    requires var k := Hint(lhs.contiguity, lhs, rhs); k > 1 && NegativeMultiple(v, w, k, s)
    ensures var k := Hint(lhs.contiguity, lhs, rhs); !ConstantBy(Quotients(v, w), k) && !ContiguousBy(Remainders(v, w), k)
  {
    hide Divides, Holds, GroupStart, TruncDiv, TruncRem;
    SecondOfGroup(v, w, lhs, rhs, s);
    InRun(v, w, lhs, rhs, s + 1);
  }

  /** The remainders are contiguous on the groups that the remainder visitor reports exactly if it
      reports single elements, or no group starts at a negative multiple of the divisor. */
  lemma RemIsContiguousIff(v: seq<int>, w: seq<int>, lhs: Info, rhs: Info)
    requires |v| == |w| && NonZero(w) && Holds(v, lhs) && Holds(w, rhs)
    ensures RemContiguity(lhs, rhs, |v|) > 0
    ensures ContiguousBy(Remainders(v, w), RemContiguity(lhs, rhs, |v|)) <==>
              RemContiguity(lhs, rhs, |v|) == 1 || NoNegativeMultiple(v, w, RemContiguity(lhs, rhs, |v|))
  {
    hide Divides, Holds, TruncDiv, TruncRem, NegativeMultiple;
    var k := RemContiguity(lhs, rhs, |v|);
    if k == 1 {
      assert forall i: nat :: GroupStart(i, 1) == i;
    } else {
      if NoNegativeMultiple(v, w, k) {
        forall i | 0 <= i < |v| ensures Remainders(v, w)[i] == Remainders(v, w)[GroupStart(i, k)] + (i - GroupStart(i, k)) {
          InRun(v, w, lhs, rhs, i);
        }
      }
      forall s | 0 <= s < |v| && NegativeMultiple(v, w, k, s) ensures !ContiguousBy(Remainders(v, w), k) {
        FailsAt(v, w, lhs, rhs, s);
      }
    }
  }

  /** A run of four values from -4 on, divided by 4: the visitor reports one constant group. */
  lemma NegativeRunFails()
    ensures var v: seq<int>, w: seq<int> := [-4, -3, -2, -1], [4, 4, 4, 4];
            var lhs, rhs := Info(4, 4, 1, None), Info(1, 4, 4, None);
            && Holds(v, lhs) && Holds(w, rhs) && NonZero(w)
            && DivConstancy(lhs, rhs, 4) == 4 && !ConstantBy(Quotients(v, w), 4)
  {
    var v: seq<int>, w: seq<int> := [-4, -3, -2, -1], [4, 4, 4, 4];
    var lhs, rhs := Info(4, 4, 1, None), Info(1, 4, 4, None);
    assert Divides(4, -4) by {
      assert -4 == (-1) * 4;
    }
    assert Divides(4, 4) by {
      assert 4 == 1 * 4;
    }
    forall i: nat | i < 4 ensures GroupStart(i, 4) == 0 && GroupStart(i, 1) == i {
    }
    assert Holds(v, lhs) && Holds(w, rhs);
    assert Gcd(4, 4) == 4 && Gcd(1, 4) == 1;
    assert GroupStart(0, 4) == 0 && Abs(v[0]) == 4;
    assert NegativeMultiple(v, w, 4, 0);
    DivIsConstantIff(v, w, lhs, rhs);
  }
}
