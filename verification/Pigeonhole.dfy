/** Counting bit vectors: the two dimension facts the layout proofs need. */
module Pigeonhole {
  import opened F2Matrix
  import opened Words

  ghost predicate InjectiveOn(s: set<Bits>, f: Bits -> Bits) {
    forall x, y :: x in s && y in s && f(x) == f(y) ==> x == y
  }

  ghost function Image(s: set<Bits>, f: Bits -> Bits): set<Bits> {
    set x | x in s :: f(x)
  }

  function Push(b: bool, x: Bits): Bits { [b] + x }

  ghost function AllBits(n: nat): set<Bits> {
    if n == 0 then {[]}
    else Image(AllBits(n - 1), x => Push(false, x)) + Image(AllBits(n - 1), x => Push(true, x))
  }

  lemma {:induction false} InAllBits(b: Bits, n: nat)
    ensures b in AllBits(n) <==> |b| == n
  {
    if n > 0 {
      if |b| == n {
        InAllBits(b[1..], n - 1);
        assert b == Push(b[0], b[1..]);
      }
      if b in AllBits(n) {
        var x :| x in AllBits(n - 1) && (b == Push(false, x) || b == Push(true, x));
        InAllBits(x, n - 1);
      }
    }
  }

  lemma PushInjective(b: bool, s: set<Bits>)
    ensures InjectiveOn(s, x => Push(b, x))
  {
    forall x, y | x in s && y in s && Push(b, x) == Push(b, y)
      ensures x == y
    {
      assert Push(b, x)[1..] == x && Push(b, y)[1..] == y;
    }
  }

  lemma {:induction false} ImageSize(s: set<Bits>, f: Bits -> Bits)
    ensures |Image(s, f)| <= |s|
    ensures InjectiveOn(s, f) ==> |Image(s, f)| == |s|
  {
    if s != {} {
      var x :| x in s;
      ImageSize(s - {x}, f);
      assert Image(s, f) == Image(s - {x}, f) + {f(x)};
    }
  }

  lemma SubsetSize(a: set<Bits>, b: set<Bits>)
    requires a <= b
    ensures |a| <= |b|
    ensures |a| == |b| ==> a == b
  {
    assert |b| == |a| + |b - a|;
  }

  lemma {:induction false} CountBits(n: nat)
    ensures |AllBits(n)| == Pow2(n)
  {
    if n > 0 {
      CountBits(n - 1);
      var rest := AllBits(n - 1);
      var zeros, ones := Image(rest, x => Push(false, x)), Image(rest, x => Push(true, x));
      PushInjective(false, rest);
      PushInjective(true, rest);
      ImageSize(rest, x => Push(false, x));
      ImageSize(rest, x => Push(true, x));
      assert forall b :: b in zeros ==> !b[0];
      assert forall b :: b in ones ==> b[0];
      assert zeros !! ones;
      assert |zeros + ones| == |zeros| + |ones|;
    }
  }

  // No function from vectors of length a reaches all vectors of a greater length b.
  lemma OntoNeedsWidth(a: nat, b: nat, f: Bits -> Bits)
    requires forall y: Bits :: |y| == b ==> exists x: Bits :: |x| == a && f(x) == y
    ensures b <= a
  {
    CountBits(a);
    CountBits(b);
    ImageSize(AllBits(a), f);
    forall y | y in AllBits(b)
      ensures y in Image(AllBits(a), f)
    {
      InAllBits(y, b);
      var x: Bits :| |x| == a && f(x) == y;
      InAllBits(x, a);
    }
    SubsetSize(AllBits(b), Image(AllBits(a), f));
    if a < b {
      Pow2Increases(a, b);
    }
  }

  // An injective map of the vectors of length n into themselves reaches all of them.
  lemma InjectiveIsOnto(n: nat, f: Bits -> Bits, y: Bits) returns (x: Bits)
    requires |y| == n
    requires forall b, c: Bits :: |b| == n && |c| == n && f(b) == f(c) ==> b == c
    requires forall b: Bits :: |b| == n ==> |f(b)| == n
    ensures |x| == n && f(x) == y
  {
    var all := AllBits(n);
    forall b | b in all ensures |b| == n {
      InAllBits(b, n);
    }
    ImageSize(all, f);
    forall b | b in Image(all, f) ensures b in all {
      InAllBits(b, n);
    }
    SubsetSize(Image(all, f), all);
    InAllBits(y, n);
    x :| x in all && f(x) == y;
  }
}
