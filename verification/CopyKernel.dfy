/** The kernels that copy one strided view to another: strided_copy_kernel
(FlagGems/triton_src/cat_copy.py) and copy_kernel_nd, copy_kernel_linear
(FlagGems/triton_src/copy.py). */
module CopyKernel {
  import opened Arith
  import opened Strided

  // Elements numbered below e have been copied, and nothing else has changed.
  ghost predicate CopiedUpTo(src: seq<real>, sv: View, was: seq<real>, now: seq<real>, dv: View, e: nat)
    requires sv.Valid(|src|) && dv.Valid(|was|) && sv.shape == dv.shape && |now| == |was|
  {
    && (forall idx: seq<nat> :: IsIndex(dv.shape, idx) && Linear(dv.shape, idx) < e ==> CopiedAt(src, sv, now, dv, idx))
    && forall p :: 0 <= p < |now| && UntouchedBefore(dv, p, e) ==> now[p] == was[p]
  }

  ghost predicate CopiedAt(src: seq<real>, sv: View, now: seq<real>, dv: View, idx: seq<nat>)
    requires |sv.strides| == |sv.shape| == |dv.shape| == |dv.strides|
  {
    sv.InBounds(|src|, idx) && dv.InBounds(|now|, idx) && now[dv.Position(idx)] == src[sv.Position(idx)]
  }

  ghost predicate UntouchedBefore(dv: View, p: nat, e: nat)
    requires |dv.strides| == |dv.shape|
  {
    forall idx: seq<nat> :: IsIndex(dv.shape, idx) && Linear(dv.shape, idx) < e ==> dv.Position(idx) != p
  }

  /** Every element of the view was copied, and nothing outside it was written. */
  ghost predicate Copied(src: seq<real>, sv: View, was: seq<real>, now: seq<real>, dv: View)
    requires sv.Valid(|src|) && dv.Valid(|was|) && sv.shape == dv.shape
  {
    && |now| == |was|
    && (forall idx: seq<nat> :: IsIndex(dv.shape, idx) ==> CopiedAt(src, sv, now, dv, idx))
    && forall p :: 0 <= p < |now| && Outside(dv, p) ==> now[p] == was[p]
  }

  ghost predicate Outside(dv: View, p: nat)
    requires |dv.strides| == |dv.shape|
  {
    forall idx: seq<nat> :: IsIndex(dv.shape, idx) ==> dv.Position(idx) != p
  }

  lemma CopyOne(src: seq<real>, sv: View, was: seq<real>, now: seq<real>, dv: View, e: nat)
    requires sv.Valid(|src|) && dv.Valid(|was|) && sv.shape == dv.shape && |now| == |was| && dv.Separate()
    requires CopiedUpTo(src, sv, was, now, dv, e) && e < Numel(dv.shape)
    ensures (forall d :: 0 <= d < |dv.shape| ==> dv.shape[d] > 0) && |Decode(dv.shape, e)| == |dv.shape|
    ensures var idx := Decode(dv.shape, e);
            && sv.InBounds(|src|, idx) && dv.InBounds(|now|, idx)
            && CopiedUpTo(src, sv, was, now[dv.Position(idx) := src[sv.Position(idx)]], dv, e + 1)
  {
    hide Dot, Linear, Decode;
    LinearDecode(dv.shape, e);
    var j := Decode(dv.shape, e);
    var next := now[dv.Position(j) := src[sv.Position(j)]];
    forall idx: seq<nat> | IsIndex(dv.shape, idx) && Linear(dv.shape, idx) < e + 1 ensures CopiedAt(src, sv, next, dv, idx) {
      if Linear(dv.shape, idx) == e {
        LinearInjective(dv.shape, idx, j);
      } else {
        assert CopiedAt(src, sv, now, dv, idx);
      }
    }
    forall p | 0 <= p < |next| && UntouchedBefore(dv, p, e + 1) ensures next[p] == was[p] {
      assert dv.Position(j) != p;
      assert UntouchedBefore(dv, p, e);
    }
  }

  lemma CopyDone(src: seq<real>, sv: View, was: seq<real>, now: seq<real>, dv: View)
    requires sv.Valid(|src|) && dv.Valid(|was|) && sv.shape == dv.shape && |now| == |was|
    requires CopiedUpTo(src, sv, was, now, dv, Numel(dv.shape))
    ensures Copied(src, sv, was, now, dv)
  {
    hide Linear, Numel;
    forall idx: seq<nat> | IsIndex(dv.shape, idx) ensures CopiedAt(src, sv, now, dv, idx) {
      DecodeLinear(dv.shape, idx);
    }
    forall p | 0 <= p < |now| && Outside(dv, p) ensures UntouchedBefore(dv, p, Numel(dv.shape)) {
    }
  }

  lemma CopyStart(src: seq<real>, sv: View, was: seq<real>, dv: View)
    requires sv.Valid(|src|) && dv.Valid(|was|) && sv.shape == dv.shape
    ensures CopiedUpTo(src, sv, was, was, dv, 0)
  {
  }

  // (n + b - 1) / b programs of b lanes.
  function Programs(n: nat, b: nat): (g: nat)
    requires b > 0
    ensures g * b >= n
  {
    (n + b - 1) / b
  }

  /** strided_copy_kernel and copy_kernel_nd over their whole grid: every lane below `numel`
      decodes its number and copies one element. */
  method StridedCopy(src: seq<real>, sv: View, dst: array<real>, dv: View, maxDims: nat, block: nat)
    requires sv.Valid(|src|) && dv.Valid(dst.Length) && sv.shape == dv.shape && dv.Separate()
    requires |dv.shape| <= maxDims && block > 0
    modifies dst
    ensures Copied(src, sv, old(dst[..]), dst[..], dv)
  {
    hide CopiedUpTo, Copied, Decode, Linear, Dot, sv.Valid, dv.Valid, Numel;
    ghost var was := dst[..];
    CopyStart(src, sv, was, dv);
    var n := Numel(dv.shape);
    var grid := Programs(n, block);
    for pid := 0 to grid
      invariant CopiedUpTo(src, sv, was, dst[..], dv, Min(pid * block, n))
    {
      for lane := 0 to block
        invariant CopiedUpTo(src, sv, was, dst[..], dv, Min(pid * block + lane, n))
      {
        var e := pid * block + lane;
        if e < n {
          CopyOne(src, sv, was, dst[..], dv, e);
          ValidStrides(sv, |src|);
          ValidStrides(dv, dst.Length);
          var a, b := Offsets(e, dv.shape, sv.strides, dv.strides, maxDims);
          ghost var before := dst[..];
          dst[dv.base + b] := src[sv.base + a];
          assert dst[..] == before[dv.base + b := src[sv.base + a]];
        }
      }
      NextProgram(pid, block);
    }
    CopyDone(src, sv, was, dst[..], dv);
  }

  lemma ValidStrides(v: View, size: nat)
    requires v.Valid(size)
    ensures |v.strides| == |v.shape|
  {
  }

  lemma NextProgram(pid: nat, block: nat)
    ensures (pid + 1) * block == pid * block + block
  {
  }

  // ---------- contiguous views ----------

  lemma ContiguousPosition(v: View, idx: seq<nat>)
    requires |v.strides| == |v.shape| && v.IsContiguous() && IsIndex(v.shape, idx)
    ensures v.Position(idx) == v.base + Linear(v.shape, idx)
  {
    DecodeLinear(v.shape, idx);
    DotSame(idx, v.strides, Contiguous(v.shape));
    DotContiguous(v.shape, idx);
  }

  /** A contiguous view with room for its elements is valid and separate. */
  lemma ContiguousIsFine(v: View, size: nat)
    requires |v.strides| == |v.shape| && v.IsContiguous() && v.base + Numel(v.shape) <= size
    ensures v.Valid(size) && v.Separate()
  {
    forall idx: seq<nat> | IsIndex(v.shape, idx) ensures v.InBounds(size, idx) {
      ContiguousPosition(v, idx);
      DecodeLinear(v.shape, idx);
    }
    forall a: seq<nat>, b: seq<nat> | IsIndex(v.shape, a) && IsIndex(v.shape, b) && v.Position(a) == v.Position(b) ensures a == b {
      ContiguousPosition(v, a);
      ContiguousPosition(v, b);
      LinearInjective(v.shape, a, b);
    }
  }

  /** copy_kernel_linear over its whole grid copies the first n elements ... */
  method LinearCopy(src: seq<real>, sbase: nat, dst: array<real>, dbase: nat, n: nat, block: nat)
    requires sbase + n <= |src| && dbase + n <= dst.Length && block > 0
    modifies dst
    ensures forall p :: 0 <= p < dst.Length ==> dst[p] == if dbase <= p < dbase + n then src[sbase + (p - dbase)] else old(dst[p])
  {
    var grid := Programs(n, block);
    for pid := 0 to grid
      invariant forall p :: 0 <= p < dst.Length ==> dst[p] == if dbase <= p < dbase + Min(pid * block, n) then src[sbase + (p - dbase)] else old(dst[p])
    {
      for lane := 0 to block
        invariant forall p :: 0 <= p < dst.Length ==> dst[p] == if dbase <= p < dbase + Min(pid * block + lane, n) then src[sbase + (p - dbase)] else old(dst[p])
      {
        var e := pid * block + lane;
        if e < n {
          dst[dbase + e] := src[sbase + e];
        }
      }
      NextProgram(pid, block);
    }
  }

  /** ... which on contiguous views of one shape is what copy_kernel_nd does. */
  lemma LinearIsCopy(src: seq<real>, sv: View, was: seq<real>, now: seq<real>, dv: View)
    requires sv.Valid(|src|) && dv.Valid(|was|) && sv.shape == dv.shape && |now| == |was|
    requires sv.IsContiguous() && dv.IsContiguous()
    requires sv.base + Numel(sv.shape) <= |src| && dv.base + Numel(dv.shape) <= |now|
    requires forall p :: 0 <= p < |now| ==> now[p] == if dv.base <= p < dv.base + Numel(dv.shape) then src[sv.base + (p - dv.base)] else was[p]
    ensures Copied(src, sv, was, now, dv)
  {
    hide Linear, Dot, Numel;
    forall idx: seq<nat> | IsIndex(dv.shape, idx) ensures CopiedAt(src, sv, now, dv, idx) {
      ContiguousPosition(sv, idx);
      ContiguousPosition(dv, idx);
      DecodeLinear(dv.shape, idx);
      assert sv.InBounds(|src|, idx) && dv.InBounds(|was|, idx);
    }
    forall p | 0 <= p < |now| && Outside(dv, p) ensures now[p] == was[p] {
      if dv.base <= p < dv.base + Numel(dv.shape) {
        LinearDecode(dv.shape, p - dv.base);
        ContiguousPosition(dv, Decode(dv.shape, p - dv.base));
      }
    }
  }
}
