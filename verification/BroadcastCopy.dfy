/** broadcasted_stride and copy_ (FlagGems/lib/copy.cpp:12-37, 170-241). */
module BroadcastCopy {
  import opened Strided
  import opened Wrappers
  import opened CopyKernel

  // NumPy-style broadcasting: dimensions are matched from the last, sizes agree or are 1.
  ghost predicate Broadcastable(shape: Sizes, target: Sizes) {
    && |shape| <= |target|
    && forall d :: 0 <= d < |shape| ==> shape[d] == target[|target| - |shape| + d] || shape[d] == 1
  }

  // The element of the source that belongs to an index of the target.
  function SourceIndex(shape: Sizes, target: Sizes, idx: seq<nat>): (s: seq<nat>)
    requires |shape| <= |target| == |idx|
    ensures |s| == |shape|
  {
    seq(|shape|, d requires 0 <= d < |shape| => if shape[d] == 1 then 0 else idx[|target| - |shape| + d])
  }

  /** `broadcasted_stride`: with the new strides, an index of the target finds the source element
      that broadcasting assigns to it; shapes that do not broadcast are refused, and no others. */
  method BroadcastedStride(shape: Sizes, stride: seq<nat>, target: Sizes) returns (r: Option<seq<nat>>)
    requires |stride| == |shape|
    ensures r.Some? <==> Broadcastable(shape, target)
    ensures r.Some? ==> |r.value| == |target|
    ensures r.Some? ==> forall idx: seq<nat> :: IsIndex(target, idx) ==> Dot(idx, r.value) == Dot(SourceIndex(shape, target, idx), stride)
  {
    if |target| < |shape| {
      return None;
    }
    var diff := |target| - |shape|;
    var fullShape := seq(diff, d => 1) + shape;
    var fullStride := seq(diff, d => 0) + stride;
    var out: seq<nat> := [];
    for i := 0 to |target|
      invariant |out| == i
      invariant forall d :: 0 <= d < i ==> fullShape[d] == target[d] || fullShape[d] == 1
      invariant forall d :: 0 <= d < i ==> out[d] == if fullShape[d] == target[d] then fullStride[d] else 0
    {
      if fullShape[i] == target[i] {
        out := out + [fullStride[i]];
      } else if fullShape[i] == 1 {
        out := out + [0];
      } else {
        assert i >= diff && shape[i - diff] == fullShape[i];
        assert target[|target| - |shape| + (i - diff)] == target[i];
        return None;
      }
    }
    forall d | 0 <= d < |shape| ensures shape[d] == target[diff + d] || shape[d] == 1 {
      assert fullShape[diff + d] == shape[d];
    }
    forall d | 0 <= d < diff ensures out[d] == 0 || target[d] == 1 {
      assert fullShape[d] == 1 && fullStride[d] == 0;
    }
    forall d | 0 <= d < |shape| ensures out[diff + d] == if shape[d] == target[diff + d] then stride[d] else 0 {
      assert fullShape[diff + d] == shape[d] && fullStride[diff + d] == stride[d];
    }
    forall idx: seq<nat> | IsIndex(target, idx) ensures Dot(idx, out) == Dot(SourceIndex(shape, target, idx), stride) {
      DotBroadcast(shape, stride, target, out, idx);
    }
    r := Some(out);
  }

  ghost predicate Strides(shape: Sizes, stride: seq<nat>, target: Sizes, out: seq<nat>) {
    && |stride| == |shape| <= |target| == |out|
    && (forall d :: 0 <= d < |target| - |shape| ==> out[d] == 0 || target[d] == 1)
    && forall d :: 0 <= d < |shape| ==>
         && (shape[d] == target[|target| - |shape| + d] || shape[d] == 1)
         && out[|target| - |shape| + d] == if shape[d] == target[|target| - |shape| + d] then stride[d] else 0
  }

  lemma {:induction false} DotBroadcast(shape: Sizes, stride: seq<nat>, target: Sizes, out: seq<nat>, idx: seq<nat>)
    requires Strides(shape, stride, target, out) && IsIndex(target, idx)
    ensures Dot(idx, out) == Dot(SourceIndex(shape, target, idx), stride)
    decreases |target|
  {
    var n := |target| - 1;
    var s := SourceIndex(shape, target, idx);
    if target == [] {
    } else if shape == [] {
      hide SourceIndex;
      NoStrides(stride, target, out);
      IndexFront(target, idx);
      DotBroadcast(shape, stride, target[..n], out[..n], idx[..n]);
      ZeroTerm(idx[n], out[n], target[n]);
    } else {
      hide Strides;
      var k := |shape| - 1;
      TailStrides(shape, stride, target, out);
      IndexFront(target, idx);
      DotBroadcast(shape[..k], stride[..k], target[..n], out[..n], idx[..n]);
      assert s[..k] == SourceIndex(shape[..k], target[..n], idx[..n]);
      LastTerm(shape[k], target[n], stride[k], out[n], idx[n]);
    }
  }

  lemma NoStrides(stride: seq<nat>, target: Sizes, out: seq<nat>)
    requires Strides([], stride, target, out) && target != []
    ensures Strides([], stride, target[..|target| - 1], out[..|target| - 1])
    ensures out[|target| - 1] == 0 || target[|target| - 1] == 1
  {
  }

  lemma TailStrides(shape: Sizes, stride: seq<nat>, target: Sizes, out: seq<nat>)
    requires Strides(shape, stride, target, out) && shape != []
    ensures Strides(shape[..|shape| - 1], stride[..|shape| - 1], target[..|target| - 1], out[..|target| - 1])
    ensures var k, n := |shape| - 1, |target| - 1;
            && |stride| == |shape| <= |target| == |out|
            && (shape[k] == target[n] || shape[k] == 1) && out[n] == if shape[k] == target[n] then stride[k] else 0
  {
    assert |target| - |shape| + (|shape| - 1) == |target| - 1;
  }

  lemma ZeroTerm(i: nat, s: nat, t: nat)
    requires (s == 0 || t == 1) && i < t
    ensures i * s == 0
  {
  }

  lemma LastTerm(size: nat, t: nat, stride: nat, out: nat, i: nat)
    requires (size == t || size == 1) && i < t && out == if size == t then stride else 0
    ensures i * out == (if size == 1 then 0 else i) * stride
  {
  }

  // ---------- copy_ ----------

  const BLOCK_SIZE: nat := 1024

  const INT32_MAX: nat := 0x7FFF_FFFF

  // Every element of dst holds the source element that broadcasting assigns to it.
  ghost predicate Broadcasted(src: seq<real>, sv: View, dst: seq<real>, dv: View) {
    && |sv.strides| == |sv.shape| <= |dv.shape| == |dv.strides|
    && forall idx: seq<nat> :: IsIndex(dv.shape, idx) ==> BroadcastAt(src, sv, dst, dv, idx)
  }

  ghost predicate BroadcastAt(src: seq<real>, sv: View, dst: seq<real>, dv: View, idx: seq<nat>)
    requires |sv.strides| == |sv.shape| <= |dv.shape| == |dv.strides|
  {
    && dv.InBounds(|dst|, idx) && sv.InBounds(|src|, SourceIndex(sv.shape, dv.shape, idx))
    && dst[dv.Position(idx)] == src[sv.Position(SourceIndex(sv.shape, dv.shape, idx))]
  }

  lemma SourceIndexValid(shape: Sizes, target: Sizes, idx: seq<nat>)
    requires Broadcastable(shape, target) && IsIndex(target, idx)
    ensures IsIndex(shape, SourceIndex(shape, target, idx))
  {
  }

  // A source view with broadcast strides is valid, and copying through it broadcasts.
  lemma BroadcastView(sv: View, dv: View, strides: seq<nat>, size: nat)
    requires sv.Valid(size) && |dv.strides| == |dv.shape| == |strides| && Broadcastable(sv.shape, dv.shape)
    requires forall idx: seq<nat> :: IsIndex(dv.shape, idx) ==> Dot(idx, strides) == Dot(SourceIndex(sv.shape, dv.shape, idx), sv.strides)
    ensures View(sv.base, dv.shape, strides).Valid(size)
  {
    hide Dot, SourceIndex;
    var v := View(sv.base, dv.shape, strides);
    forall idx: seq<nat> | IsIndex(v.shape, idx) ensures v.InBounds(size, idx) {
      SourceIndexValid(sv.shape, dv.shape, idx);
      assert sv.InBounds(size, SourceIndex(sv.shape, dv.shape, idx));
    }
  }

  ghost predicate SamePosition(sv: View, dv: View, strides: seq<nat>, idx: seq<nat>)
    requires |sv.shape| <= |dv.shape| == |strides| && |sv.strides| == |sv.shape|
  {
    |idx| == |dv.shape| && Dot(idx, strides) == Dot(SourceIndex(sv.shape, dv.shape, idx), sv.strides)
  }

  lemma BroadcastOne(src: seq<real>, sv: View, now: seq<real>, dv: View, strides: seq<nat>, idx: seq<nat>)
    requires |sv.strides| == |sv.shape| <= |dv.shape| == |dv.strides| == |strides|
    requires SamePosition(sv, dv, strides, idx) && CopiedAt(src, View(sv.base, dv.shape, strides), now, dv, idx)
    ensures BroadcastAt(src, sv, now, dv, idx)
  {
    hide Dot, SourceIndex;
  }

  lemma CopiedIsBroadcast(src: seq<real>, sv: View, was: seq<real>, now: seq<real>, dv: View, strides: seq<nat>)
    requires sv.Valid(|src|) && dv.Valid(|was|) && Broadcastable(sv.shape, dv.shape) && |strides| == |dv.shape|
    requires forall idx: seq<nat> :: IsIndex(dv.shape, idx) ==> Dot(idx, strides) == Dot(SourceIndex(sv.shape, dv.shape, idx), sv.strides)
    requires View(sv.base, dv.shape, strides).Valid(|src|) && Copied(src, View(sv.base, dv.shape, strides), was, now, dv)
    ensures Broadcasted(src, sv, now, dv)
  {
    hide Dot, SourceIndex, BroadcastAt, CopiedAt;
    forall idx: seq<nat> | IsIndex(dv.shape, idx) ensures BroadcastAt(src, sv, now, dv, idx) {
      assert SamePosition(sv, dv, strides, idx);
      BroadcastOne(src, sv, now, dv, strides, idx);
    }
  }

  lemma SameShapeStrides(sv: View, dv: View, idx: seq<nat>)
    requires |sv.strides| == |sv.shape| && sv.shape == dv.shape && IsIndex(dv.shape, idx)
    ensures SourceIndex(sv.shape, dv.shape, idx) == idx
  {
  }

  lemma SelfBroadcast(shape: Sizes, strides: seq<nat>, r: seq<nat>)
    requires |strides| == |shape| == |r|
    requires forall idx: seq<nat> :: IsIndex(shape, idx) ==> Dot(idx, r) == Dot(SourceIndex(shape, shape, idx), strides)
    ensures forall idx: seq<nat> :: IsIndex(shape, idx) ==> Dot(idx, r) == Dot(idx, strides)
  {
    forall idx: seq<nat> | IsIndex(shape, idx) ensures Dot(idx, r) == Dot(idx, strides) {
      SameShapeStrides(View(0, shape, strides), View(0, shape, strides), idx);
    }
  }

  // No element of the source lies where an element of the destination does.
  ghost predicate NoOverlap(sv: View, dv: View)
    requires |sv.strides| == |sv.shape| && |dv.strides| == |dv.shape|
  {
    forall idx: seq<nat> :: IsIndex(sv.shape, idx) ==> Outside(dv, sv.Position(idx))
  }

  // A source in the same storage is not changed by the copy.
  lemma SourceStays(was: seq<real>, sv: View, now: seq<real>, dv: View)
    requires sv.Valid(|was|) && |was| == |now| && |dv.strides| == |dv.shape| && NoOverlap(sv, dv) && Broadcastable(sv.shape, dv.shape)
    requires Broadcasted(was, sv, now, dv) && forall p :: 0 <= p < |now| && Outside(dv, p) ==> now[p] == was[p]
    ensures Broadcasted(now, sv, now, dv)
  {
    hide SourceIndex, Dot, Outside;
    forall idx: seq<nat> | IsIndex(dv.shape, idx) ensures BroadcastAt(now, sv, now, dv, idx) {
      assert BroadcastAt(was, sv, now, dv, idx);
      SourceIndexValid(sv.shape, dv.shape, idx);
      assert Outside(dv, sv.Position(SourceIndex(sv.shape, dv.shape, idx)));
    }
  }

  /** `copy_` behind its early return, between views that do not overlap: refused exactly if the source does not broadcast;
      otherwise every element receives its source element and nothing else changes, whether the
      linear or the strided kernel is chosen.  As the views do not meet, it makes no difference
      that here all loads come before the stores. */
  method CopyInto(dst: array<real>, dv: View, src: array<real>, sv: View) returns (ok: bool)
    requires dv.Valid(dst.Length) && dv.Separate() && sv.Valid(src.Length) && (dst != src || NoOverlap(sv, dv))
    requires dv.IsContiguous() ==> dv.base + Numel(dv.shape) <= dst.Length
    requires sv.IsContiguous() ==> sv.base + Numel(sv.shape) <= src.Length
    modifies dst
    ensures ok <==> Broadcastable(sv.shape, dv.shape)
    ensures ok ==> Broadcasted(old(src[..]), sv, dst[..], dv) && Broadcasted(src[..], sv, dst[..], dv)
    ensures !ok ==> dst[..] == old(dst[..])
    ensures forall p :: 0 <= p < dst.Length && Outside(dv, p) ==> dst[p] == old(dst[p])
  {
    hide Broadcasted, Outside, NoOverlap;
    ghost var from, was := src[..], dst[..];
    ok := CheckBroadcast(sv.shape, dv.shape);
    if ok {
      CopyBroadcast(dst, dv, src, sv);
      if dst == src {
        SourceStays(from, sv, dst[..], dv);
      }
    }
  }

  // The choice of a kernel, and its launch.
  method CopyBroadcast(dst: array<real>, dv: View, src: array<real>, sv: View)
    requires dv.Valid(dst.Length) && dv.Separate() && sv.Valid(src.Length) && Broadcastable(sv.shape, dv.shape)
    requires dv.IsContiguous() ==> dv.base + Numel(dv.shape) <= dst.Length
    requires sv.IsContiguous() ==> sv.base + Numel(sv.shape) <= src.Length
    modifies dst
    ensures Broadcasted(old(src[..]), sv, dst[..], dv)
    ensures forall p :: 0 <= p < dst.Length && Outside(dv, p) ==> dst[p] == old(dst[p])
  {
    hide Broadcasted, Copied, Dot, SourceIndex, Linear, Numel, Contiguous;
    ghost var was := dst[..];
    var mem := src[..];
    var numel := Numel(dv.shape);
    if dv.IsContiguous() && sv.IsContiguous() && sv.shape == dv.shape && numel <= INT32_MAX {
      LinearCopy(mem, sv.base, dst, dv.base, numel, BLOCK_SIZE);
      LinearIsCopy(mem, sv, was, dst[..], dv);
      OutsideKept(mem, sv, was, dst[..], dv);
      forall idx: seq<nat> | IsIndex(dv.shape, idx) ensures SourceIndex(sv.shape, dv.shape, idx) == idx {
        SameShapeStrides(sv, dv, idx);
      }
      CopiedIsBroadcast(mem, sv, was, dst[..], dv, sv.strides);
      return;
    }
    var r := BroadcastedStride(sv.shape, sv.strides, dv.shape);
    var q := BroadcastedStride(dv.shape, dv.strides, dv.shape);
    SelfBroadcastable(dv.shape);
    SelfBroadcast(dv.shape, dv.strides, q.value);
    BroadcastView(sv, dv, r.value, |mem|);
    var from, to := View(sv.base, dv.shape, r.value), View(dv.base, dv.shape, q.value);
    SamePositions(dv, to, dst.Length);
    StridedCopy(mem, from, dst, to, |dv.shape|, BLOCK_SIZE);
    CopiedThere(mem, from, was, dst[..], to, dv);
    OutsideKept(mem, from, was, dst[..], dv);
    CopiedIsBroadcast(mem, sv, was, dst[..], dv, r.value);
  }

  // The TORCH_CHECKs of copy_.
  method CheckBroadcast(shape: Sizes, target: Sizes) returns (ok: bool)
    ensures ok <==> Broadcastable(shape, target)
  {
    if |shape| > |target| {
      return false;
    }
    for i := 0 to |shape|
      invariant forall d :: 0 <= d < i ==> shape[d] == target[|target| - |shape| + d] || shape[d] == 1
    {
      if !(shape[i] == target[|target| - |shape| + i] || shape[i] == 1) {
        return false;
      }
    }
    ok := true;
  }

  lemma SelfBroadcastable(shape: Sizes)
    ensures Broadcastable(shape, shape)
  {
  }

  lemma SamePositions(v: View, w: View, size: nat)
    requires v.Valid(size) && v.Separate() && w.base == v.base && w.shape == v.shape && |w.strides| == |w.shape|
    requires forall idx: seq<nat> :: IsIndex(v.shape, idx) ==> Dot(idx, w.strides) == Dot(idx, v.strides)
    ensures w.Valid(size) && w.Separate()
    ensures forall idx: seq<nat> :: IsIndex(v.shape, idx) ==> w.Position(idx) == v.Position(idx)
  {
    hide Dot;
    forall idx: seq<nat> | IsIndex(v.shape, idx) ensures w.InBounds(size, idx) {
      assert v.InBounds(size, idx);
    }
  }

  lemma CopiedThere(src: seq<real>, sv: View, was: seq<real>, now: seq<real>, w: View, v: View)
    requires sv.Valid(|src|) && w.Valid(|was|) && v.Valid(|was|) && sv.shape == w.shape == v.shape
    requires forall idx: seq<nat> :: IsIndex(v.shape, idx) ==> w.Position(idx) == v.Position(idx)
    requires Copied(src, sv, was, now, w)
    ensures Copied(src, sv, was, now, v)
  {
    hide Dot;
    forall idx: seq<nat> | IsIndex(v.shape, idx) ensures CopiedAt(src, sv, now, v, idx) {
      assert CopiedAt(src, sv, now, w, idx);
    }
    forall p | 0 <= p < |now| && Outside(v, p) ensures now[p] == was[p] {
      assert Outside(w, p);
    }
  }

  lemma OutsideKept(src: seq<real>, sv: View, was: seq<real>, now: seq<real>, dv: View)
    requires sv.Valid(|src|) && dv.Valid(|was|) && sv.shape == dv.shape && Copied(src, sv, was, now, dv)
    ensures |now| == |was| && forall p :: 0 <= p < |now| && Outside(dv, p) ==> now[p] == was[p]
  {
  }

  // ---------- copy_ as a whole ----------

  /** What `copy_` is for: `was` and `from` are the contents of the two storages before, `now` that of
      the destination after. */
  ghost predicate Copies(was: seq<real>, dv: View, from: seq<real>, sv: View, now: seq<real>, ok: bool)
    requires |sv.strides| == |sv.shape| && |dv.strides| == |dv.shape|
  {
    && |now| == |was| && (ok <==> Broadcastable(sv.shape, dv.shape))
    && (if ok then Broadcasted(from, sv, now, dv) else now == was)
    && forall p :: 0 <= p < |now| && Outside(dv, p) ==> now[p] == was[p]
  }

  // The views start at the same address.
  ghost predicate SameAddress(dst: array<real>, dv: View, src: array<real>, sv: View) {
    dst == src && dv.base == sv.base
  }

  /** `copy_`: the early return at equal addresses, then the checks, then one of the two kernels.
      It does what it is for unless it returns early, and then if the elements are in place. */
  method Copy(dst: array<real>, dv: View, src: array<real>, sv: View) returns (ok: bool)
    requires dv.Valid(dst.Length) && dv.Separate() && sv.Valid(src.Length)
    requires dst != src || dv.base == sv.base || NoOverlap(sv, dv)
    requires dv.IsContiguous() ==> dv.base + Numel(dv.shape) <= dst.Length
    requires sv.IsContiguous() ==> sv.base + Numel(sv.shape) <= src.Length
    modifies dst
    ensures SameAddress(dst, dv, src, sv) ==> ok && dst[..] == old(dst[..])
    ensures !SameAddress(dst, dv, src, sv) || InPlace(dv, sv) ==> Copies(old(dst[..]), dv, old(src[..]), sv, dst[..], ok)
    ensures !SameAddress(dst, dv, src, sv) && ok ==> Broadcasted(src[..], sv, dst[..], dv)
  {
    hide Broadcasted, Outside, NoOverlap, Broadcastable, AlreadyThere;
    if dst == src && dv.base == sv.base {
      if InPlace(dv, sv) {
        InPlaceIsCopied(dst[..], dv, sv);
      }
      return true;
    }
    ok := CopyInto(dst, dv, src, sv);
  }

  // Each element already lies where its source element lies.
  ghost predicate AlreadyThere(dv: View, sv: View)
    requires |sv.strides| == |sv.shape| <= |dv.shape| == |dv.strides|
  {
    forall idx: seq<nat> :: IsIndex(dv.shape, idx) ==> dv.Position(idx) == sv.Position(SourceIndex(sv.shape, dv.shape, idx))
  }

  // The shapes broadcast, and each element already lies where its source element lies.
  ghost predicate InPlace(dv: View, sv: View)
    requires |sv.strides| == |sv.shape| && |dv.strides| == |dv.shape|
  {
    Broadcastable(sv.shape, dv.shape) && AlreadyThere(dv, sv)
  }

  lemma InPlaceIsCopied(mem: seq<real>, dv: View, sv: View)
    requires dv.Valid(|mem|) && sv.Valid(|mem|) && InPlace(dv, sv)
    ensures Copies(mem, dv, mem, sv, mem, true)
  {
    hide Dot, SourceIndex;
    forall idx: seq<nat> | IsIndex(dv.shape, idx) ensures BroadcastAt(mem, sv, mem, dv, idx) {
      SourceIndexValid(sv.shape, dv.shape, idx);
      assert dv.InBounds(|mem|, idx) && sv.InBounds(|mem|, SourceIndex(sv.shape, dv.shape, idx));
    }
  }

  /** `copy_` returns at once if both views start at the same address, before it looks at the shapes.
      For all contents of the memory that is right exactly if the shapes broadcast and the views
      also agree in their positions; comparing the first addresses alone does not tell. */
  lemma EarlyReturnIff(size: nat, dv: View, sv: View)
    requires dv.Valid(size) && sv.Valid(size)
    ensures (forall mem: seq<real> :: |mem| == size ==> Copies(mem, dv, mem, sv, mem, true)) <==> InPlace(dv, sv)
  {
    hide Dot, SourceIndex, Outside, Broadcastable;
    if InPlace(dv, sv) {
      forall mem: seq<real> | |mem| == size ensures Copies(mem, dv, mem, sv, mem, true) {
        InPlaceIsCopied(mem, dv, sv);
      }
    }
    var mem := seq(size, p => p as real);
    if Copies(mem, dv, mem, sv, mem, true) {
      forall idx: seq<nat> | IsIndex(dv.shape, idx) ensures dv.Position(idx) == sv.Position(SourceIndex(sv.shape, dv.shape, idx)) {
        assert BroadcastAt(mem, sv, mem, dv, idx);
      }
    }
  }

  /** Copying the first row of a matrix over the whole matrix is a call for which it is wrong, and so
      is copying three elements over that matrix, to which they do not broadcast. */
  lemma EarlyReturnFails()
    ensures var dv, row, three := View(0, [2, 2], [2, 1]), View(0, [2], [1]), View(0, [3], [1]);
            && dv.Valid(4) && dv.Separate() && row.Valid(4) && three.Valid(4)
            && dv.base == row.base == three.base
            && Broadcastable(row.shape, dv.shape) && !AlreadyThere(dv, row)
            && !Broadcastable(three.shape, dv.shape)
  {
    var dv, row, three := View(0, [2, 2], [2, 1]), View(0, [2], [1]), View(0, [3], [1]);
    SmallContiguous();
    hide Contiguous, Numel, Dot;
    ContiguousIsFine(dv, 4);
    ContiguousIsFine(row, 4);
    ContiguousIsFine(three, 4);
    SecondRow();
  }

  // The second row is not where the first one is.
  lemma SecondRow()
    ensures !AlreadyThere(View(0, [2, 2], [2, 1]), View(0, [2], [1]))
  {
    var dv, row, idx := View(0, [2, 2], [2, 1]), View(0, [2], [1]), [1, 0];
    assert IsIndex(dv.shape, idx);
    var s := SourceIndex(row.shape, dv.shape, idx);
    assert s == [0];
    assert idx[..1] == [1] && dv.strides[..1] == [2] && |[1][..0]| == 0;
    assert Dot([1], [2]) == 2;
    assert dv.Position(idx) == 2;
    assert |s[..0]| == 0;
    assert row.Position(s) == 0;
  }

  lemma SmallContiguous()
    ensures Contiguous([2]) == Contiguous([3]) == [1] && Contiguous([2, 2]) == [2, 1]
    ensures Numel([2]) == 2 && Numel([3]) == 3 && Numel([2, 2]) == 4
  {
    assert [2][..0] == [3][..0] == [] && [2, 2][..1] == [2];
    assert Contiguous([]) == [] && Scaled([], 2) == [] && Scaled([], 3) == [] && Scaled([1], 2) == [2];
    assert Numel([]) == 1;
  }
}
