/** cat (FlagGems/lib/cat.cpp): shape checks, per-tensor output views, one strided copy each. */
module Concatenate {
  import opened Strided
  import opened CopyKernel

  datatype Tensor = Tensor(mem: seq<real>, view: View) {
    ghost predicate Valid() {
      view.Valid(|mem|)
    }

    ghost predicate HasAt(idx: seq<nat>, v: real)
      requires |view.strides| == |view.shape|
    {
      view.InBounds(|mem|, idx) && mem[view.Position(idx)] == v
    }
  }

  datatype Error = NoTensors | DimOutOfRange | RankMismatch | SizeMismatch | TooManyDims

  datatype Outcome = Failed(error: Error) | Same(tensor: Tensor) | Fresh(shape: Sizes, out: array<real>)

  const BLOCK_SIZE: nat := 256

  const MAX_DIMS: nat := 8

  // The shapes agree in rank, and in every dimension but d.
  ghost predicate AgreeOff(a: Sizes, b: Sizes, d: nat) {
    |a| == |b| && forall i :: 0 <= i < |a| && i != d ==> a[i] == b[i]
  }

  ghost predicate AllAgree(tensors: seq<Tensor>, d: nat)
    requires |tensors| > 0
  {
    forall t :: 0 <= t < |tensors| ==> AgreeOff(tensors[t].view.shape, tensors[0].view.shape, d)
  }

  // Where tensor t starts along the dimension: the sizes of the tensors before it.
  function StartOf(tensors: seq<Tensor>, d: nat, t: nat): nat
    requires t <= |tensors| && forall k :: 0 <= k < |tensors| ==> d < |tensors[k].view.shape|
  {
    if t == 0 then 0 else StartOf(tensors, d, t - 1) + tensors[t - 1].view.shape[d]
  }

  lemma {:induction false} StartIncreases(tensors: seq<Tensor>, d: nat, a: nat, b: nat)
    requires a <= b <= |tensors| && forall k :: 0 <= k < |tensors| ==> d < |tensors[k].view.shape|
    ensures StartOf(tensors, d, a) <= StartOf(tensors, d, b)
  {
    if a < b {
      StartIncreases(tensors, d, a, b - 1);
    }
  }

  function OutShape(tensors: seq<Tensor>, d: nat): (s: Sizes)
    requires |tensors| > 0 && forall k :: 0 <= k < |tensors| ==> d < |tensors[k].view.shape|
    ensures |s| == |tensors[0].view.shape| && s[d] == StartOf(tensors, d, |tensors|)
    ensures forall i :: 0 <= i < |s| && i != d ==> s[i] == tensors[0].view.shape[i]
  {
    tensors[0].view.shape[d := StartOf(tensors, d, |tensors|)]
  }

  // The output index of an element of tensor t.
  function Shifted(tensors: seq<Tensor>, d: nat, t: nat, idx: seq<nat>): (r: seq<nat>)
    requires t <= |tensors| && d < |idx| && forall k :: 0 <= k < |tensors| ==> d < |tensors[k].view.shape|
    ensures |r| == |idx|
  {
    idx[d := idx[d] + StartOf(tensors, d, t)]
  }

  // The view of the output that tensor t is copied to.
  function OutView(tensors: seq<Tensor>, d: nat, t: nat): (v: View)
    requires t < |tensors| && AllDims(tensors, d)
    ensures |v.strides| == |tensors[0].view.shape| && v.shape == tensors[t].view.shape
  {
    var strides := Contiguous(OutShape(tensors, d));
    View(StartOf(tensors, d, t) * strides[d], tensors[t].view.shape, strides)
  }

  predicate AllDims(tensors: seq<Tensor>, d: nat) {
    |tensors| > 0 && forall k :: 0 <= k < |tensors| ==> d < |tensors[k].view.shape|
  }

  lemma ShiftedValid(tensors: seq<Tensor>, d: nat, t: nat, idx: seq<nat>)
    requires AllDims(tensors, d) && AllAgree(tensors, d) && t < |tensors| && IsIndex(tensors[t].view.shape, idx)
    ensures IsIndex(OutShape(tensors, d), Shifted(tensors, d, t, idx))
  {
    StartIncreases(tensors, d, t + 1, |tensors|);
    assert AgreeOff(tensors[t].view.shape, tensors[0].view.shape, d);
  }

  /** The view places an element where its output index says. */
  lemma ViewPosition(tensors: seq<Tensor>, d: nat, t: nat, idx: seq<nat>)
    requires AllDims(tensors, d) && AllAgree(tensors, d) && t < |tensors| && IsIndex(tensors[t].view.shape, idx)
    ensures OutView(tensors, d, t).Position(idx) == Linear(OutShape(tensors, d), Shifted(tensors, d, t, idx))
  {
    hide Linear, Contiguous;
    ShiftedValid(tensors, d, t, idx);
    assert AgreeOff(tensors[t].view.shape, tensors[0].view.shape, d);
    var s := Contiguous(OutShape(tensors, d));
    DotShift(idx, s, d, StartOf(tensors, d, t));
    DotContiguous(OutShape(tensors, d), Shifted(tensors, d, t, idx));
  }

  lemma OutViewFine(tensors: seq<Tensor>, d: nat, t: nat)
    requires AllDims(tensors, d) && AllAgree(tensors, d) && t < |tensors|
    ensures |OutView(tensors, d, t).strides| == |OutView(tensors, d, t).shape|
    ensures OutView(tensors, d, t).Valid(Numel(OutShape(tensors, d))) && OutView(tensors, d, t).Separate()
  {
    hide Linear, Numel, OutView, Shifted;
    assert AgreeOff(tensors[t].view.shape, tensors[0].view.shape, d);
    var v, shape := OutView(tensors, d, t), OutShape(tensors, d);
    forall idx: seq<nat> | IsIndex(v.shape, idx) ensures v.InBounds(Numel(shape), idx) {
      ShiftedValid(tensors, d, t, idx);
      ViewPosition(tensors, d, t, idx);
      DecodeLinear(shape, Shifted(tensors, d, t, idx));
    }
    forall a: seq<nat>, b: seq<nat> | IsIndex(v.shape, a) && IsIndex(v.shape, b) && v.Position(a) == v.Position(b) ensures a == b {
      ShiftedValid(tensors, d, t, a);
      ShiftedValid(tensors, d, t, b);
      ViewPosition(tensors, d, t, a);
      ViewPosition(tensors, d, t, b);
      LinearInjective(shape, Shifted(tensors, d, t, a), Shifted(tensors, d, t, b));
      ShiftInjective(tensors, d, t, a, b);
    }
  }

  lemma ShiftInjective(tensors: seq<Tensor>, d: nat, t: nat, a: seq<nat>, b: seq<nat>)
    requires AllDims(tensors, d) && t <= |tensors| && d < |a| == |b| && Shifted(tensors, d, t, a) == Shifted(tensors, d, t, b)
    ensures a == b
  {
    forall i | 0 <= i < |a| ensures a[i] == b[i] {
      assert Shifted(tensors, d, t, a)[i] == Shifted(tensors, d, t, b)[i];
    }
  }

  // Elements of different tensors have different output indexes.
  lemma SlabsApart(tensors: seq<Tensor>, d: nat, t: nat, u: nat, a: seq<nat>, b: seq<nat>)
    requires AllDims(tensors, d) && t < u < |tensors| && IsIndex(tensors[t].view.shape, a) && IsIndex(tensors[u].view.shape, b)
    ensures Shifted(tensors, d, t, a)[d] < Shifted(tensors, d, u, b)[d]
  {
    StartIncreases(tensors, d, t + 1, u);
  }

  /** Every output index belongs to exactly one element of one tensor. */
  lemma {:induction false} EverySlab(tensors: seq<Tensor>, d: nat, n: nat, j: nat) returns (t: nat)
    requires AllDims(tensors, d) && n <= |tensors| && j < StartOf(tensors, d, n)
    ensures t < n && StartOf(tensors, d, t) <= j < StartOf(tensors, d, t) + tensors[t].view.shape[d]
  {
    if j < StartOf(tensors, d, n - 1) {
      t := EverySlab(tensors, d, n - 1, j);
    } else {
      t := n - 1;
    }
  }

  lemma OutIndexHasSource(tensors: seq<Tensor>, d: nat, out: seq<nat>) returns (t: nat, idx: seq<nat>)
    requires AllDims(tensors, d) && AllAgree(tensors, d) && IsIndex(OutShape(tensors, d), out)
    ensures t < |tensors| && IsIndex(tensors[t].view.shape, idx) && Shifted(tensors, d, t, idx) == out
  {
    t := EverySlab(tensors, d, |tensors|, out[d]);
    assert AgreeOff(tensors[t].view.shape, tensors[0].view.shape, d);
    idx := out[d := out[d] - StartOf(tensors, d, t)];
  }

  // ---------- the copies ----------

  // Tensor t has arrived in the output.
  ghost predicate Placed(tensors: seq<Tensor>, d: nat, t: nat, out: seq<real>)
    requires AllDims(tensors, d) && t < |tensors|
  {
    forall idx: seq<nat> :: IsIndex(tensors[t].view.shape, idx) ==> PlacedAt(tensors, d, t, out, idx)
  }

  ghost predicate PlacedAt(tensors: seq<Tensor>, d: nat, t: nat, out: seq<real>, idx: seq<nat>)
    requires AllDims(tensors, d) && t < |tensors|
  {
    && |tensors[t].view.strides| == |tensors[t].view.shape| == |idx| == |tensors[0].view.shape|
    && var p := Linear(OutShape(tensors, d), Shifted(tensors, d, t, idx));
       p < |out| && tensors[t].HasAt(idx, out[p])
  }

  ghost predicate Ready(tensors: seq<Tensor>, d: nat) {
    AllDims(tensors, d) && AllAgree(tensors, d) && forall t :: 0 <= t < |tensors| ==> tensors[t].Valid()
  }

  lemma CopyPlaces(tensors: seq<Tensor>, d: nat, t: nat, was: seq<real>, now: seq<real>)
    requires Ready(tensors, d) && t < |tensors| && |was| == Numel(OutShape(tensors, d)) && OutView(tensors, d, t).Valid(|was|)
    requires Copied(tensors[t].mem, tensors[t].view, was, now, OutView(tensors, d, t))
    ensures Placed(tensors, d, t, now)
  {
    hide Linear, Numel, Dot, OutShape;
    assert AgreeOff(tensors[t].view.shape, tensors[0].view.shape, d);
    forall idx: seq<nat> | IsIndex(tensors[t].view.shape, idx) ensures PlacedAt(tensors, d, t, now, idx) {
      assert CopiedAt(tensors[t].mem, tensors[t].view, now, OutView(tensors, d, t), idx);
      ViewPosition(tensors, d, t, idx);
    }
  }

  lemma CopyKeeps(tensors: seq<Tensor>, d: nat, t: nat, u: nat, was: seq<real>, now: seq<real>)
    requires Ready(tensors, d) && t < u < |tensors| && |was| == Numel(OutShape(tensors, d)) && OutView(tensors, d, u).Valid(|was|)
    requires Copied(tensors[u].mem, tensors[u].view, was, now, OutView(tensors, d, u)) && Placed(tensors, d, t, was)
    ensures Placed(tensors, d, t, now)
  {
    hide Linear, Numel, Dot, OutShape, CopiedAt;
    forall idx: seq<nat> | IsIndex(tensors[t].view.shape, idx) ensures PlacedAt(tensors, d, t, now, idx) {
      assert PlacedAt(tensors, d, t, was, idx);
      ElsewhereOutside(tensors, d, t, u, idx);
    }
  }

  lemma ElsewhereOutside(tensors: seq<Tensor>, d: nat, t: nat, u: nat, idx: seq<nat>)
    requires Ready(tensors, d) && t < u < |tensors| && IsIndex(tensors[t].view.shape, idx) && |idx| == |tensors[0].view.shape|
    ensures |OutView(tensors, d, u).strides| == |OutView(tensors, d, u).shape|
    ensures Outside(OutView(tensors, d, u), Linear(OutShape(tensors, d), Shifted(tensors, d, t, idx)))
  {
    hide Linear, Dot, OutView;
    assert AgreeOff(tensors[u].view.shape, tensors[0].view.shape, d);
    var shape := OutShape(tensors, d);
    forall b: seq<nat> | IsIndex(tensors[u].view.shape, b)
      ensures OutView(tensors, d, u).Position(b) != Linear(shape, Shifted(tensors, d, t, idx))
    {
      ViewPosition(tensors, d, u, b);
      ShiftedValid(tensors, d, t, idx);
      ShiftedValid(tensors, d, u, b);
      SlabsApart(tensors, d, t, u, idx, b);
      if Linear(shape, Shifted(tensors, d, u, b)) == Linear(shape, Shifted(tensors, d, t, idx)) {
        LinearInjective(shape, Shifted(tensors, d, u, b), Shifted(tensors, d, t, idx));
      }
    }
  }

  lemma NoIndex(shape: Sizes, idx: seq<nat>)
    requires Numel(shape) == 0
    ensures !IsIndex(shape, idx)
  {
    if IsIndex(shape, idx) {
      DecodeLinear(shape, idx);
    }
  }

  // An empty tensor has nothing to place.
  lemma EmptyPlaces(tensors: seq<Tensor>, d: nat, t: nat, out: seq<real>)
    requires AllDims(tensors, d) && t < |tensors| && Numel(tensors[t].view.shape) == 0
    ensures Placed(tensors, d, t, out)
  {
    forall idx: seq<nat> ensures !IsIndex(tensors[t].view.shape, idx) {
      NoIndex(tensors[t].view.shape, idx);
    }
  }

  /** Each element of the concatenation, by its output index, is the element of the tensor it
      belongs to. */
  ghost predicate Concatenated(tensors: seq<Tensor>, d: nat, out: seq<real>)
    requires AllDims(tensors, d)
  {
    && |out| == Numel(OutShape(tensors, d))
    && forall t :: 0 <= t < |tensors| ==> Placed(tensors, d, t, out)
  }

  // The dimension, counted from the end if negative.
  function DimOf(tensors: seq<Tensor>, dim: int): int
    requires |tensors| > 0
  {
    if dim < 0 then dim + |tensors[0].view.shape| else dim
  }

  ghost predicate DimInRange(tensors: seq<Tensor>, dim: int)
    requires |tensors| > 0
  {
    -|tensors[0].view.shape| <= dim < |tensors[0].view.shape|
  }

  ghost predicate Agree(tensors: seq<Tensor>, dim: int)
    requires |tensors| > 0
  {
    DimInRange(tensors, dim) && AllAgree(tensors, DimOf(tensors, dim))
  }

  // Tensor t is the first one whose shape does not agree.
  ghost predicate FirstOdd(tensors: seq<Tensor>, d: nat, t: nat) {
    && 0 < t < |tensors| && !AgreeOff(tensors[t].view.shape, tensors[0].view.shape, d)
    && forall k :: 0 <= k < t ==> AgreeOff(tensors[k].view.shape, tensors[0].view.shape, d)
  }

  // The first shape that does not agree has another rank.
  ghost predicate RankFails(tensors: seq<Tensor>, d: nat) {
    exists t: nat :: FirstOdd(tensors, d, t) && |tensors[t].view.shape| != |tensors[0].view.shape|
  }

  // The first shape that does not agree has the rank, but not the sizes.
  ghost predicate SizeFails(tensors: seq<Tensor>, d: nat) {
    exists t: nat :: FirstOdd(tensors, d, t) && |tensors[t].view.shape| == |tensors[0].view.shape|
  }

  lemma FirstOddDecides(tensors: seq<Tensor>, d: nat, t: nat)
    requires FirstOdd(tensors, d, t)
    ensures !AllAgree(tensors, d)
    ensures RankFails(tensors, d) <==> |tensors[t].view.shape| != |tensors[0].view.shape|
    ensures SizeFails(tensors, d) <==> |tensors[t].view.shape| == |tensors[0].view.shape|
  {
    hide AgreeOff;
    assert forall u: nat :: FirstOdd(tensors, d, u) ==> u == t;
  }

  lemma NoneOdd(tensors: seq<Tensor>, d: nat)
    requires |tensors| > 0 && AllAgree(tensors, d)
    ensures !RankFails(tensors, d) && !SizeFails(tensors, d)
  {
    hide AgreeOff;
  }

  // The checks of the shapes against the first.
  method CheckShapes(tensors: seq<Tensor>, d: nat) returns (error: seq<Error>)
    requires |tensors| > 0 && d < |tensors[0].view.shape|
    ensures error == [] <==> AllAgree(tensors, d)
    ensures error == [RankMismatch] <==> RankFails(tensors, d)
    ensures error == [SizeMismatch] <==> SizeFails(tensors, d)
    ensures error == [] || error == [RankMismatch] || error == [SizeMismatch]
  {
    hide RankFails, SizeFails;
    var first := tensors[0].view.shape;
    for i := 1 to |tensors|
      invariant forall t :: 0 <= t < i ==> AgreeOff(tensors[t].view.shape, first, d)
    {
      var current := tensors[i].view.shape;
      if |current| != |first| {
        FirstOddDecides(tensors, d, i);
        return [RankMismatch];
      }
      for k := 0 to |first|
        invariant forall j :: 0 <= j < k && j != d ==> current[j] == first[j]
      {
        if k != d && current[k] != first[k] {
          assert !AgreeOff(current, first, d);
          FirstOddDecides(tensors, d, i);
          return [SizeMismatch];
        }
      }
    }
    NoneOdd(tensors, d);
    error := [];
  }

  lemma AgreeHasDims(tensors: seq<Tensor>, d: nat)
    requires |tensors| > 0 && d < |tensors[0].view.shape| && AllAgree(tensors, d)
    ensures AllDims(tensors, d)
  {
    forall t | 0 <= t < |tensors| ensures d < |tensors[t].view.shape| {
      assert AgreeOff(tensors[t].view.shape, tensors[0].view.shape, d);
    }
  }

  // cat_dim_size and the storage offsets.
  method StorageOffsets(tensors: seq<Tensor>, d: nat, stride: nat) returns (total: nat, offsets: seq<nat>)
    requires AllDims(tensors, d)
    ensures total == StartOf(tensors, d, |tensors|)
    ensures |offsets| == |tensors| && forall t :: 0 <= t < |tensors| ==> offsets[t] == StartOf(tensors, d, t) * stride
  {
    hide StartOf;
    StartNext(tensors, d);
    total := 0;
    for i := 0 to |tensors|
      invariant total == StartOf(tensors, d, i)
    {
      total := total + tensors[i].view.shape[d];
    }
    var current := 0;
    offsets := [current];
    for i := 0 to |tensors| - 1
      invariant |offsets| == i + 1 && current == StartOf(tensors, d, i) * stride
      invariant forall t :: 0 <= t <= i ==> offsets[t] == StartOf(tensors, d, t) * stride
    {
      AddStride(StartOf(tensors, d, i), tensors[i].view.shape[d], stride);
      current := current + tensors[i].view.shape[d] * stride;
      offsets := offsets + [current];
    }
  }

  lemma StartNext(tensors: seq<Tensor>, d: nat)
    requires AllDims(tensors, d)
    ensures StartOf(tensors, d, 0) == 0
    ensures forall t :: 0 <= t < |tensors| ==> StartOf(tensors, d, t + 1) == StartOf(tensors, d, t) + tensors[t].view.shape[d]
  {
  }

  lemma AddStride(a: nat, b: nat, s: nat)
    ensures (a + b) * s == a * s + b * s
  {
  }

  ghost predicate SomeElements(tensors: seq<Tensor>) {
    exists t :: 0 <= t < |tensors| && Numel(tensors[t].view.shape) != 0
  }

  // The loop of launches.
  method CopyAll(tensors: seq<Tensor>, d: nat, out: array<real>, offsets: seq<nat>, strides: seq<nat>) returns (ok: bool)
    requires Ready(tensors, d) && out.Length == Numel(OutShape(tensors, d)) && strides == Contiguous(OutShape(tensors, d))
    requires |offsets| == |tensors| && forall t :: 0 <= t < |tensors| ==> offsets[t] == StartOf(tensors, d, t) * strides[d]
    modifies out
    ensures ok <==> |tensors[0].view.shape| <= MAX_DIMS || !SomeElements(tensors)
    ensures ok ==> Concatenated(tensors, d, out[..])
  {
    hide Numel, Linear, Contiguous, Placed, Copied, OutShape;
    for i := 0 to |tensors|
      invariant forall t :: 0 <= t < i ==> Placed(tensors, d, t, out[..])
      invariant |tensors[0].view.shape| > MAX_DIMS ==> forall t :: 0 <= t < i ==> Numel(tensors[t].view.shape) == 0
    {
      ghost var was := out[..];
      var t := tensors[i];
      if Numel(t.view.shape) == 0 {
        EmptyPlaces(tensors, d, i, out[..]);
        continue;
      }
      SameRank(tensors, d, i);
      var view := View(offsets[i], t.view.shape, strides);
      assert view == OutView(tensors, d, i);
      if |t.view.shape| > MAX_DIMS {
        return false;
      }
      OutViewFine(tensors, d, i);
      StridedCopy(t.mem, t.view, out, view, MAX_DIMS, BLOCK_SIZE);
      CopyPlaces(tensors, d, i, was, out[..]);
      forall k | 0 <= k < i ensures Placed(tensors, d, k, out[..]) {
        CopyKeeps(tensors, d, k, i, was, out[..]);
      }
    }
    ok := true;
  }

  lemma SameRank(tensors: seq<Tensor>, d: nat, t: nat)
    requires Ready(tensors, d) && t < |tensors|
    ensures |tensors[t].view.shape| == |tensors[0].view.shape| && tensors[t].Valid()
  {
    assert AgreeOff(tensors[t].view.shape, tensors[0].view.shape, d);
  }

  /** `cat`: every error exactly when its check fails, a single tensor as it is, and otherwise the
      concatenation. */
  method Cat(tensors: seq<Tensor>, dim: int) returns (r: Outcome)
    requires forall t :: 0 <= t < |tensors| ==> tensors[t].Valid()
    ensures |tensors| == 0 ==> r == Failed(NoTensors)
    ensures |tensors| == 1 ==> r == Same(tensors[0])
    ensures |tensors| > 1 ==> (r == Failed(DimOutOfRange) <==> !DimInRange(tensors, dim))
    ensures |tensors| > 1 ==> (r == Failed(RankMismatch) <==> DimInRange(tensors, dim) && RankFails(tensors, DimOf(tensors, dim)))
    ensures |tensors| > 1 ==> (r == Failed(SizeMismatch) <==> DimInRange(tensors, dim) && SizeFails(tensors, DimOf(tensors, dim)))
    ensures |tensors| > 1 ==> (r == Failed(TooManyDims) <==> Agree(tensors, dim) && |tensors[0].view.shape| > MAX_DIMS && SomeElements(tensors))
    ensures |tensors| > 1 ==> (r.Fresh? <==> Agree(tensors, dim) && (|tensors[0].view.shape| <= MAX_DIMS || !SomeElements(tensors)))
    ensures r.Fresh? ==>
              && fresh(r.out) && |tensors| > 1 && DimInRange(tensors, dim) && AllDims(tensors, DimOf(tensors, dim))
              && r.shape == OutShape(tensors, DimOf(tensors, dim)) && Concatenated(tensors, DimOf(tensors, dim), r.out[..])
  {
    hide Numel, Linear, Contiguous, Concatenated, AllAgree, SomeElements, StartOf, RankFails, SizeFails;
    if |tensors| == 0 {
      return Failed(NoTensors);
    }
    if |tensors| == 1 {
      return Same(tensors[0]);
    }
    var ndim := |tensors[0].view.shape|;
    if !(-ndim <= dim < ndim) {
      return Failed(DimOutOfRange);
    }
    var d: nat := if dim < 0 then dim + ndim else dim;
    var error := CheckShapes(tensors, d);
    if error != [] {
      return Failed(error[0]);
    }
    AgreeHasDims(tensors, d);
    var shape := OutShape(tensors, d);
    var strides := Contiguous(shape);
    var out := new real[Numel(shape)];
    var total, offsets := StorageOffsets(tensors, d, strides[d]);
    assert total == shape[d];
    var ok := CopyAll(tensors, d, out, offsets, strides);
    r := if ok then Fresh(shape, out) else Failed(TooManyDims);
  }
}
