/** multiRootTopologicalSort (lib/Analysis/Utility.cpp:723-858). */
module TopoSort {
  import opened Acyclic
  import opened TopoSortSpec

  class DFSSubgraphState {
    var members: set<nat>
    var deque: seq<nat>

    // The set holds what the deque holds.
    ghost predicate Valid()
      reads this
    {
      Different(deque) && forall x :: x in members <==> x in deque
    }

    constructor ()
      ensures Valid() && deque == []
    {
      members, deque := {}, [];
    }

    method PushBack(op: nat) returns (added: bool)
      requires Valid()
      modifies this
      ensures Valid() && deque == Push(old(deque), op) && added == (op !in old(deque))
    {
      if op in members {
        return false;
      }
      assert forall i :: 0 <= i < |deque| ==> deque[i] in deque;
      members, deque := members + {op}, deque + [op];
      return true;
    }

    method PopFront() returns (op: nat)
      requires Valid() && deque != []
      modifies this
      ensures Valid() && [op] + deque == old(deque)
    {
      op := deque[0];
      assert deque == [op] + deque[1..];
      assert op !in deque[1..];
      deque := deque[1..];
      members := members - {op};
    }

    predicate Empty()
      reads this
    {
      deque == []
    }
  }

  lemma PushUnseenStep(q: seq<nat>, deps: seq<nat>, i: nat, seen: set<nat>)
    requires i < |deps|
    ensures PushUnseen(q, deps[..i + 1], seen) ==
            if deps[i] in seen then PushUnseen(q, deps[..i], seen) else Push(PushUnseen(q, deps[..i], seen), deps[i])
  {
    assert deps[..i + 1] == deps[..i] + [deps[i]];
    PushUnseenAppend(q, deps[..i], [deps[i]], seen);
    assert |[deps[i]][1..]| == 0;
  }

  lemma PushUnseenNone(q: seq<nat>, deps: seq<nat>, seen: set<nat>)
    ensures PushUnseen(q, deps[..0], seen) == q
  {
  }

  lemma {:induction false} PushUnseenAppend(q: seq<nat>, a: seq<nat>, b: seq<nat>, seen: set<nat>)
    ensures PushUnseen(q, a + b, seen) == PushUnseen(PushUnseen(q, a, seen), b, seen)
    decreases |a|
  {
    if a == [] {
      assert a + b == b;
    } else {
      assert (a + b)[1..] == a[1..] + b;
      PushUnseenAppend(if a[0] in seen then q else Push(q, a[0]), a[1..], b, seen);
    }
  }

  // What is left to look at when the loop over the enclosing operations has come to `parent`.
  function Up(g: Ops, parent: int): seq<nat>
    requires g.Valid() && parent < g.Size()
  {
    if parent < 0 then [] else [parent] + g.Ancestors(parent)
  }

  lemma UpStart(g: Ops, op: nat)
    requires g.Valid() && op < g.Size()
    ensures |g.parent| == g.Size() && -1 <= g.parent[op] < op && g.Ancestors(op)[0..] == Up(g, g.parent[op])
  {
  }

  lemma UpStep(g: Ops, all: seq<nat>, done: nat, parent: nat)
    requires g.Valid() && parent < g.Size() && done <= |all| && all[done..] == Up(g, parent)
    ensures done < |all| && all[done] == parent && |g.parent| == g.Size() && -1 <= g.parent[parent] < parent
    ensures all[done + 1..] == Up(g, g.parent[parent])
  {
    assert all[done] == all[done..][0] && all[done + 1..] == all[done..][1..];
  }

  lemma UpEnd(g: Ops, all: seq<nat>, done: nat, parent: int)
    requires g.Valid() && parent < 0 && done <= |all| && all[done..] == Up(g, parent)
    ensures done == |all| && all[..done] == all && forall k :: 0 <= k < |all| ==> all[k] in all
  {
  }

  class DFSState {
    const toSort: seq<nat>
    var topologicalCounts: seq<nat>
    var seen: set<nat>

    constructor (toSort: seq<nat>)
      ensures this.toSort == toSort && topologicalCounts == [] && seen == {}
    {
      this.toSort := toSort;
      topologicalCounts, seen := [], {};
    }

    // The loop over the operands.
    method PushOperands(operands: seq<nat>, subGraph: DFSSubgraphState) returns (ready: bool)
      requires subGraph.Valid()
      modifies subGraph
      ensures subGraph.Valid() && subGraph.deque == PushUnseen(old(subGraph.deque), operands, seen)
      ensures ready <==> forall d :: d in operands ==> d in seen
    {
      hide PushUnseen, Push;
      ready := true;
      ghost var q0 := subGraph.deque;
      PushUnseenNone(q0, operands, seen);
      for i := 0 to |operands|
        invariant subGraph.Valid() && subGraph.deque == PushUnseen(q0, operands[..i], seen)
        invariant ready <==> forall k :: 0 <= k < i ==> operands[k] in seen
      {
        PushUnseenStep(q0, operands, i, seen);
        if operands[i] !in seen {
          var _ := subGraph.PushBack(operands[i]);
          ready := false;
        }
      }
      assert operands[..|operands|] == operands;
      assert forall k :: 0 <= k < |operands| ==> operands[k] in operands;
    }

    // The loop over the enclosing operations.
    method PushAncestors(g: Ops, op: nat, subGraph: DFSSubgraphState) returns (ready: bool)
      requires g.Valid() && op < g.Size() && subGraph.Valid()
      modifies subGraph
      ensures subGraph.Valid() && subGraph.deque == PushUnseen(old(subGraph.deque), g.Ancestors(op), seen)
      ensures ready <==> forall d :: d in g.Ancestors(op) ==> d in seen
    {
      hide PushUnseen, Push, Up, g.Valid, g.Ancestors;
      ready := true;
      ghost var q0, all, done := subGraph.deque, g.Ancestors(op), 0;
      PushUnseenNone(q0, all, seen);
      UpStart(g, op);
      var parent := g.parent[op];
      while parent >= 0
        invariant -1 <= parent < op && 0 <= done <= |all|
        invariant all[done..] == Up(g, parent)
        invariant subGraph.Valid() && subGraph.deque == PushUnseen(q0, all[..done], seen)
        invariant ready <==> forall k :: 0 <= k < done ==> all[k] in seen
        decreases parent
      {
        UpStep(g, all, done, parent);
        PushUnseenStep(q0, all, done, seen);
        if parent !in seen {
          var _ := subGraph.PushBack(parent);
          ready := false;
        }
        parent := g.parent[parent];
        done := done + 1;
      }
      UpEnd(g, all, done, parent);
    }

    /** Queues what `op` still waits for, or `op` itself if it is ready. */
    method AddToReadyQueue(g: Ops, op: nat, subGraph: DFSSubgraphState, readyQueue: seq<nat>) returns (rq: seq<nat>)
      requires g.Valid() && op < g.Size() && subGraph.Valid()
      modifies subGraph
      ensures subGraph.Valid() && subGraph.deque == PushUnseen(old(subGraph.deque), g.Deps(op), seen)
      ensures rq == if g.Ready(op, seen) then readyQueue + [op] else readyQueue
    {
      hide PushUnseen, Push;
      PushUnseenAppend(subGraph.deque, g.defs[op], g.Ancestors(op), seen);
      var operandsReady := PushOperands(g.defs[op], subGraph);
      var parentsReady := PushAncestors(g, op, subGraph);
      rq := if operandsReady && parentsReady then readyQueue + [op] else readyQueue;
    }
  }

  // The state of the search as a value.
  ghost predicate Shows(s: Search, state: DFSState, subGraph: DFSSubgraphState, rq: seq<nat>)
    reads state, subGraph
  {
    subGraph.Valid() && s.seen == state.seen && s.q == subGraph.deque && s.rq == rq
  }

  // Calls addToReadyQueue for the operations of a list.
  method Examine(g: Ops, list: seq<nat>, ghost later: seq<nat>, state: DFSState, subGraph: DFSSubgraphState, rq0: seq<nat>, ghost s0: Search)
    returns (rq: seq<nat>, ghost s: Search)
    requires SearchInvariant(g, s0) && Shows(s0, state, subGraph, rq0) && s0.pending == list + later
    modifies subGraph
    ensures SearchInvariant(g, s) && Shows(s, state, subGraph, rq) && s.pending == later
    ensures s0.touched <= s.touched && forall x :: x in list ==> x in s.touched
  {
    hide SearchInvariant, PushUnseen, g.Deps, g.Ready, Different;
    rq, s := rq0, s0;
    InvariantSays(g, s);
    for i := 0 to |list|
      invariant g.Valid() && SearchInvariant(g, s) && Shows(s, state, subGraph, rq) && s.pending == list[i..] + later
      invariant s0.touched <= s.touched && forall x :: x in list[..i] ==> x in s.touched
    {
      TouchKeeps(g, s);
      assert s.pending[0] == list[i] && s.pending[1..] == list[i + 1..] + later;
      rq := state.AddToReadyQueue(g, list[i], subGraph, rq);
      s := Touch(g, s);
      assert list[..i + 1] == list[..i] + [list[i]];
    }
    assert list[|list|..] + later == later && list[..|list|] == list;
  }

  // `ops` is what was numbered since `before`, each operation after its dependencies.
  ghost predicate Numbered(g: Ops, ops: seq<nat>, before: set<nat>, seen: set<nat>)
    requires g.Valid()
  {
    && (forall x :: x in seen ==> x < g.Size())
    && (forall x :: x in seen <==> x in before || x in ops)
    && (forall x :: x in ops ==> x < g.Size() && x !in before)
    && Different(ops) && DepsFirst(g, ops, before)
  }

  lemma NumberOne(g: Ops, ops: seq<nat>, before: set<nat>, seen: set<nat>, c: nat)
    requires g.Valid() && Numbered(g, ops, before, seen) && c < g.Size() && c !in seen && g.Ready(c, seen)
    ensures Numbered(g, ops + [c], before, seen + {c})
  {
    hide g.Deps;
    assert forall i :: 0 <= i < |ops| ==> ops[i] in ops;
    var t := ops + [c];
    forall i, d | 0 <= i < |t| && t[i] < g.Size() && d in g.Deps(t[i]) ensures d in before || d in t[..i] {
      if i < |ops| {
        assert t[i] == ops[i] && t[..i] == ops[..i];
        assert d in g.Deps(ops[i]);
      } else {
        assert t[..i] == ops && d in seen;
      }
    }
  }

  // The inner loop of dfsPostorder: numbers operations until none is ready.
  method DrainReady(g: Ops, state: DFSState, subGraph: DFSSubgraphState, rq0: seq<nat>, ops0: seq<nat>, ghost before: set<nat>, ghost s0: Search)
    returns (ops: seq<nat>, ghost s: Search)
    requires SearchInvariant(g, s0) && Shows(s0, state, subGraph, rq0) && s0.pending == []
    requires Numbered(g, ops0, before, state.seen)
    modifies state`seen, subGraph
    ensures SearchInvariant(g, s) && Shows(s, state, subGraph, []) && s.pending == []
    ensures Numbered(g, ops, before, state.seen) && s0.touched <= s.touched
    ensures old(state.seen) <= state.seen
    ensures state.seen == old(state.seen) ==> subGraph.deque == old(subGraph.deque)
  {
    hide Numbered, SearchInvariant, Different, g.Deps, g.Ready;
    ops, s := ops0, s0;
    var rq := rq0;
    InvariantSays(g, s);
    while rq != []
      invariant SearchInvariant(g, s) && Shows(s, state, subGraph, rq) && s.pending == []
      invariant g.Valid() && Numbered(g, ops, before, state.seen) && s0.touched <= s.touched
      invariant old(state.seen) <= state.seen <= Everything(g)
      invariant state.seen == old(state.seen) ==> subGraph.deque == old(subGraph.deque)
      decreases Everything(g) - state.seen, |rq|
    {
      var current := rq[|rq| - 1];
      SeeKeeps(g, s);
      LastIn(rq);
      InvariantSays(g, s);
      rq := rq[..|rq| - 1];
      ghost var n := See(g, s);
      if current in state.seen {
        s := n;
        continue;
      }
      NumberOne(g, ops, before, state.seen, current);
      assert current in Everything(g) - state.seen;
      state.seen := state.seen + {current};
      ops := ops + [current];
      s := n;
      assert s.pending == g.users[current] + g.children[current];
      rq, s := Examine(g, g.users[current], g.children[current], state, subGraph, rq, s);
      assert s.pending == g.children[current] + [];
      rq, s := Examine(g, g.children[current], [], state, subGraph, rq, s);
      InvariantSays(g, s);
    }
  }

  ghost function Everything(g: Ops): set<nat>
    requires g.Valid()
  {
    Below(g.Size())
  }

  ghost function Below(n: nat): (s: set<nat>)
    ensures forall x: nat :: x in s <==> x < n
  {
    if n == 0 then {} else Below(n - 1) + {n - 1}
  }

  lemma InvariantSays(g: Ops, s: Search)
    requires SearchInvariant(g, s)
    ensures g.Valid() && s.seen <= Everything(g) && s.InRange(g.Size())
    ensures forall x :: x in s.rq ==> x < g.Size() && g.Ready(x, s.seen)
    ensures forall x :: x in s.seen ==> x < g.Size() && g.Ready(x, s.seen)
  {
  }

  lemma {:induction false} PushUnseenSum(w: seq<nat>, q: seq<nat>, deps: seq<nat>, seen: set<nat>)
    requires (forall i :: 0 <= i < |q| ==> q[i] < |w|) && forall i :: 0 <= i < |deps| ==> deps[i] < |w|
    ensures forall i :: 0 <= i < |PushUnseen(q, deps, seen)| ==> PushUnseen(q, deps, seen)[i] < |w|
    ensures Sum(w, PushUnseen(q, deps, seen)) <= Sum(w, q) + Sum(w, deps)
    decreases |deps|
  {
    if deps != [] {
      var next := if deps[0] in seen then q else Push(q, deps[0]);
      if deps[0] !in q {
        SumAppend(w, q, [deps[0]]);
      }
      assert |[deps[0]][1..]| == 0;
      PushUnseenSum(w, next, deps[1..], seen);
    }
  }

  // Replacing an operation by what it waits for leaves fewer paths to follow.
  lemma PopLowersPaths(g: Ops, rank: seq<nat>, q: seq<nat>, seen: set<nat>)
    requires g.Valid() && Ranks(rank, g.DepGraph()) && q != [] && q[0] < g.Size() && forall x :: x in q ==> x < g.Size()
    ensures PathSum(g, rank, PushUnseen(q[1..], g.Deps(q[0]), seen)) < PathSum(g, rank, q)
  {
    hide PushUnseen, PathsFrom;
    var w, x, next := PathCounts(g.DepGraph(), rank), q[0], PushUnseen(q[1..], g.Deps(q[0]), seen);
    assert x in q && forall i :: 0 <= i < |q| ==> q[i] in q;
    assert forall y :: y in q[1..] ==> y in q;
    assert forall i :: 0 <= i < |q[1..]| ==> q[1..][i] in q[1..];
    assert forall i :: 0 <= i < |g.Deps(x)| ==> g.Deps(x)[i] in g.Deps(x);
    assert forall y :: y in next ==> y < g.Size();
    assert g.DepGraph()[x] == g.Deps(x);
    PathsFromIsSum(g.DepGraph(), rank, g.Deps(x), rank[x]);
    PushUnseenSum(w, q[1..], g.Deps(x), seen);
  }

  ghost function PathSum(g: Ops, rank: seq<nat>, q: seq<nat>): nat
    requires g.Valid() && Ranks(rank, g.DepGraph())
  {
    if forall i :: 0 <= i < |q| ==> q[i] < g.Size() then Sum(PathCounts(g.DepGraph(), rank), q) else 0
  }

  lemma NothingNumbered(g: Ops, before: set<nat>)
    requires g.Valid() && before <= Everything(g)
    ensures Numbered(g, [], before, before)
  {
  }

  // The last loop of dfsPostorder.
  method RecordCounts(ops: seq<nat>, state: DFSState)
    modifies state`topologicalCounts
    ensures state.topologicalCounts == old(state.topologicalCounts) + Reversed(Filter(ops, state.toSort))
  {
    hide Filter, Reversed;
    var i := |ops|;
    NothingFiltered(ops, state.toSort);
    while i > 0
      invariant 0 <= i <= |ops|
      invariant state.topologicalCounts == old(state.topologicalCounts) + Reversed(Filter(ops[i..], state.toSort))
    {
      i := i - 1;
      FilterFirst(ops[i..], state.toSort);
      assert ops[i..][1..] == ops[i + 1..];
      if ops[i] in state.toSort {
        state.topologicalCounts := state.topologicalCounts + [ops[i]];
      }
    }
    assert ops[0..] == ops;
  }

  lemma NothingFiltered(t: seq<nat>, keep: seq<nat>)
    ensures Reversed(Filter(t[|t|..], keep)) == []
  {
  }

  lemma FilterFirst(t: seq<nat>, keep: seq<nat>)
    requires t != []
    ensures Reversed(Filter(t, keep)) == Reversed(Filter(t[1..], keep)) + if t[0] in keep then [t[0]] else []
  {
    FilterOne(t[0], keep);
    FilterAppend([t[0]], t[1..], keep);
    assert t == [t[0]] + t[1..];
    hide *;
    ReversedAppend(Filter([t[0]], keep), Filter(t[1..], keep));
  }

  lemma FilterOne(x: nat, keep: seq<nat>)
    ensures Filter([x], keep) == (if x in keep then [x] else []) && Reversed(Filter([x], keep)) == Filter([x], keep)
  {
    assert [x][..0] == [];
  }

  /** `dfsPostorder`: numbers everything connected to `root`, and appends what is to be sorted to
      the counts, last first. */
  method DfsPostorder(g: Ops, root: nat, state: DFSState) returns (ghost ops: seq<nat>)
    requires g.Valid() && g.IsDag() && root < g.Size()
    requires state.seen <= Everything(g) && Closed(g, state.seen)
    modifies state
    ensures state.seen <= Everything(g) && Closed(g, state.seen) && root in state.seen
    ensures Numbered(g, ops, old(state.seen), state.seen)
    ensures state.topologicalCounts == old(state.topologicalCounts) + Reversed(Filter(ops, state.toSort))
  {
    hide Numbered, SearchInvariant, g.Deps, g.Ready, PushUnseen, Closed, g.IsDag, Ranks, g.DepGraph;
    var subGraph := new DFSSubgraphState();
    var _ := subGraph.PushBack(root);
    ghost var before := state.seen;
    ghost var rank := g.DagRanks();
    var list: seq<nat> := [];
    ghost var s := Search(state.seen, [root], [], state.seen, []);
    ClosedStarts(g, state.seen, root);
    NothingNumbered(g, before);
    while !subGraph.Empty()
      invariant fresh(subGraph) && SearchInvariant(g, s) && Shows(s, state, subGraph, []) && s.pending == []
      invariant Numbered(g, list, before, state.seen) && state.seen <= Everything(g)
      invariant root in s.touched || subGraph.deque == [root]
      invariant state.topologicalCounts == old(state.topologicalCounts)
      decreases Everything(g) - state.seen, PathSum(g, rank, subGraph.deque)
    {
      ghost var was, q := state.seen, subGraph.deque;
      assert q[0] in s.q;
      PopKeeps(g, s);
      InvariantSays(g, s);
      PopLowersPaths(g, rank, q, was);
      var current := subGraph.PopFront();
      assert current == q[0] && subGraph.deque == q[1..];
      s := Pop(s);
      TouchKeeps(g, s);
      var rq := state.AddToReadyQueue(g, current, subGraph, []);
      s := Touch(g, s);
      list, s := DrainReady(g, state, subGraph, rq, list, before, s);
      InvariantSays(g, s);
    }
    FinishedIsClosed(g, s);
    ops := list;
    RecordCounts(list, state);
  }

  lemma OrderGrows(g: Ops, ops: seq<nat>, order: seq<nat>, before: set<nat>, seen: set<nat>)
    requires g.Valid() && before <= Everything(g) && Closed(g, before) && Numbered(g, ops, before, seen)
    requires Numbered(g, order, {}, before)
    ensures Numbered(g, ops + order, {}, seen)
  {
    hide g.Deps, DepsFirst, Closed;
    NewIsIndependent(g, ops, before);
    DepsFirstAppend(g, ops, order);
    assert forall i :: 0 <= i < |ops| ==> ops[i] in ops;
    assert forall i :: 0 <= i < |order| ==> order[i] in order;
  }

  lemma CountsGrow(ops: seq<nat>, order: seq<nat>, keep: seq<nat>)
    ensures Reversed(Filter(order, keep)) + Reversed(Filter(ops, keep)) == Reversed(Filter(ops + order, keep))
  {
    FilterAppend(ops, order, keep);
    ReversedAppend(Filter(ops, keep), Filter(order, keep));
  }

  /** `multiRootTopologicalSort`: a permutation of `toSort` in which every operation comes after
      all it depends on. */
  method MultiRootTopologicalSort(g: Ops, toSort: seq<nat>) returns (r: seq<nat>)
    requires g.Valid() && g.IsDag() && Different(toSort) && forall x :: x in toSort ==> x < g.Size()
    ensures Sorted(g, toSort, r)
  {
    hide Numbered, Closed, g.Deps, g.IsDag, Filter, Reversed, Sorted;
    if toSort == [] {
      NothingToSort(g);
      return toSort;
    }
    var state := new DFSState(toSort);
    ghost var order: seq<nat> := [];
    NothingNumbered(g, {});
    NothingClosed(g);
    NothingFiltered([], toSort);
    for i := 0 to |toSort|
      invariant fresh(state) && state.seen <= Everything(g) && Closed(g, state.seen)
      invariant Numbered(g, order, {}, state.seen) && forall k :: 0 <= k < i ==> toSort[k] in state.seen
      invariant state.toSort == toSort && state.topologicalCounts == Reversed(Filter(order, toSort))
    {
      ghost var before := state.seen;
      assert toSort[i] in toSort;
      ghost var ops := DfsPostorder(g, toSort[i], state);
      NumberedGrows(g, ops, before, state.seen);
      OrderGrows(g, ops, order, before, state.seen);
      CountsGrow(ops, order, toSort);
      order := ops + order;
    }
    AllNumbered(g, toSort, order, state.seen);
    OrderSorts(g, toSort, order);
    ReversedAppend(Filter(order, toSort), []);
    r := Reversed(state.topologicalCounts);
  }

  lemma NothingToSort(g: Ops)
    requires g.Valid()
    ensures Sorted(g, [], [])
  {
  }

  lemma NothingClosed(g: Ops)
    requires g.Valid()
    ensures Closed(g, {}) && {} <= Everything(g)
  {
  }

  lemma NumberedGrows(g: Ops, ops: seq<nat>, before: set<nat>, seen: set<nat>)
    requires g.Valid() && Numbered(g, ops, before, seen)
    ensures before <= seen
  {
  }

  lemma AllNumbered(g: Ops, toSort: seq<nat>, order: seq<nat>, seen: set<nat>)
    requires g.Valid() && Numbered(g, order, {}, seen) && forall k :: 0 <= k < |toSort| ==> toSort[k] in seen
    ensures (forall x :: x in order ==> x < g.Size()) && DepsFirst(g, order, {}) && Different(order)
    ensures forall x :: x in toSort ==> x in order
  {
  }
}
