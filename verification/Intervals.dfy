/** Half-open intervals and shared-memory buffers (include/triton/Analysis/Allocation.h). */
module Intervals {
  import opened Arith

  datatype Interval = Interval(start: nat, end: nat) {
    predicate Intersects(r: Interval) {
      start < r.end && r.start < end
    }

    predicate NonEmpty() {
      start < end
    }

    predicate Within(r: Interval) {
      r.start <= start && end <= r.end
    }
  }

  // The default interval covers every size_t value.
  const MAX: nat := 0xFFFF_FFFF_FFFF_FFFF

  // llvm::alignTo
  function AlignTo(v: nat, a: nat): (r: nat)
    requires a > 0
    ensures v <= r < v + a && r % a == 0
    ensures v % a == 0 ==> r == v
  {
    AlignFacts(v, a);
    (v + a - 1) / a * a
  }

  lemma AlignFacts(v: nat, a: nat)
    requires a > 0
    ensures v <= (v + a - 1) / a * a < v + a
    ensures (v + a - 1) / a * a % a == 0
    ensures v % a == 0 ==> (v + a - 1) / a * a == v
  {
    var q, r := (v + a - 1) / a, (v + a - 1) % a;
    assert q * a + r == v + a - 1;
    MultipleMod(q, a);
    if v % a == 0 {
      var k := v / a;
      assert k * a == v;
      DivModUnique(v + a - 1, a, k, a - 1);
    }
  }
}
