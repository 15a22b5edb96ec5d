/** Operations, the state of a search through them, and sorted orders
(lib/Analysis/Utility.cpp:723-858). */
module TopoSortSpec {
  import opened Acyclic

  // ---------- operations ----------

  /** Operations 0..n-1.  `defs[x]` are the operations that define the operands of x, `users[x]`
      those that use its results; `parent[x]` is the operation whose region holds x (-1 at the
      top) and `children[x]` are the operations directly in the regions of x.  Operations are
      numbered so that an operation comes after its parent. */
  datatype Ops = Ops(defs: seq<seq<nat>>, users: seq<seq<nat>>, parent: seq<int>, children: seq<seq<nat>>) {
    ghost predicate Valid() {
      && |defs| == |users| == |parent| == |children|
      && IsGraph(defs) && IsGraph(users) && IsGraph(children)
      && (forall x :: 0 <= x < |parent| ==> -1 <= parent[x] < x)
      && (forall x, d :: 0 <= x < |defs| && 0 <= d < |defs| ==> (d in defs[x] <==> x in users[d]))
      && forall x, d :: 0 <= x < |parent| && 0 <= d < |children| ==> (parent[x] == d <==> x in children[d])
    }

    function Size(): nat {
      |defs|
    }

    function Ancestors(x: nat): (a: seq<nat>)
      requires Valid() && x < Size()
      ensures forall y :: y in a ==> y < x
    {
      if parent[x] < 0 then [] else [parent[x]] + Ancestors(parent[x])
    }

    // What must come before x: the definitions of its operands, and everything around it.
    function Deps(x: nat): (d: seq<nat>)
      requires Valid() && x < Size()
      ensures forall y :: y in d ==> y < Size()
    {
      assert forall y :: y in defs[x] ==> y < |defs|;
      defs[x] + Ancestors(x)
    }

    // What is looked at when x is reached: its users, and what its regions hold.
    function Dependents(x: nat): (d: seq<nat>)
      requires Valid() && x < Size()
      ensures forall y :: y in d ==> y < Size()
    {
      assert forall y :: y in users[x] ==> y < |defs|;
      assert forall y :: y in children[x] ==> y < |defs|;
      users[x] + children[x]
    }

    ghost function DepGraph(): (g: Graph)
      requires Valid()
      ensures |g| == Size() && IsGraph(g) && forall x :: 0 <= x < |g| ==> g[x] == Deps(x)
    {
      seq(Size(), x requires 0 <= x < Size() => Deps(x))
    }

    // a uses a result of b, or stands directly in a region of b.
    ghost predicate Needs(a: nat, b: nat)
      requires a < |defs| == |parent|
    {
      b in defs[a] || parent[a] == b
    }

    // No operation needs itself, directly or through others: ranks fall along every such step.
    ghost predicate IsDag()
      requires Valid()
    {
      exists rank: seq<nat> :: |rank| == |defs| && Falls(rank)
    }

    ghost predicate Falls(rank: seq<nat>)
      requires |rank| == |defs| == |parent|
    {
      forall a, b {:trigger Needs(a, b)} :: 0 <= a < |rank| && 0 <= b < |rank| && Needs(a, b) ==> rank[b] < rank[a]
    }

    lemma FallsToDeps(rank: seq<nat>, x: nat, d: nat)
      requires Valid() && |rank| == Size() && Falls(rank) && x < Size() && d in Deps(x)
      ensures rank[d] < rank[x]
    {
      if d in defs[x] {
        assert Needs(x, d);
      } else {
        FallsToAncestors(rank, x, d);
      }
    }

    lemma {:induction false} FallsToAncestors(rank: seq<nat>, x: nat, d: nat)
      requires Valid() && |rank| == Size() && Falls(rank) && x < Size() && d in Ancestors(x)
      ensures rank[d] < rank[x]
    {
      assert Needs(x, parent[x]);
      if d != parent[x] {
        FallsToAncestors(rank, parent[x], d);
      }
    }

    // Then ranks fall along all dependencies.
    lemma DagRanks() returns (rank: seq<nat>)
      requires Valid() && IsDag()
      ensures Ranks(rank, DepGraph())
    {
      rank :| |rank| == Size() && Falls(rank);
      forall x, d | 0 <= x < Size() && d in DepGraph()[x] ensures rank[d] < rank[x] {
        FallsToDeps(rank, x, d);
      }
    }

    lemma NeedsIsDep(a: nat, b: nat)
      requires Valid() && a < Size() && b < Size() && Needs(a, b)
      ensures b in Deps(a)
    {
    }

    // Everything x needs has been seen.
    predicate Ready(x: nat, seen: set<nat>)
      requires Valid() && x < Size()
    {
      forall d :: d in Deps(x) ==> d in seen
    }

    // A dependency is a dependency of the parent, the parent itself, or an operand's definition.
    lemma DepKinds(x: nat, d: nat)
      requires Valid() && x < Size() && d in Deps(x)
      ensures x in Dependents(d) || (parent[x] >= 0 && parent[x] in Deps(x) && d in Deps(parent[x]))
    {
      if d !in defs[x] {
        var p := parent[x];
        assert Ancestors(x) == [p] + Ancestors(p);
        if d == p {
          assert x in children[d];
        } else {
          assert d in Ancestors(p);
          assert p in Ancestors(x);
        }
      }
    }
  }

  // ---------- the state of a search ----------

  /** seen: numbered operations; q: the subgraph queue; rq: the ready queue; touched: operations
      that were examined; pending: operations about to be examined. */
  datatype Search = Search(seen: set<nat>, q: seq<nat>, rq: seq<nat>, touched: set<nat>, pending: seq<nat>) {
    ghost predicate InRange(n: nat) {
      && (forall x :: x in seen ==> x < n)
      && (forall x :: x in q ==> x < n)
      && (forall x :: x in rq ==> x < n)
      && (forall x :: x in touched ==> x < n)
      && forall x :: x in pending ==> x < n
    }
  }

  // What is seen has all its dependencies seen.
  ghost predicate SeenClosed(g: Ops, seen: set<nat>)
    requires g.Valid() && forall x :: x in seen ==> x < g.Size()
  {
    forall x :: x in seen ==> g.Ready(x, seen)
  }

  // An examined operation that is not seen is about to be, or waits for a dependency.
  ghost predicate Waits(g: Ops, s: Search, x: nat)
    requires g.Valid() && x < g.Size()
  {
    x in s.seen || x in s.rq || x in s.pending || !g.Ready(x, s.seen)
  }

  // A dependency it waits for was examined, or will be.
  ghost predicate Chased(g: Ops, s: Search, x: nat, d: nat)
    requires g.Valid() && x < g.Size()
  {
    x in s.seen || d in s.seen || d in s.q || d in s.touched || d in s.pending
  }

  ghost predicate SearchInvariant(g: Ops, s: Search) {
    && g.Valid() && s.InRange(g.Size()) && SeenClosed(g, s.seen)
    && (forall x :: x in s.touched ==> Waits(g, s, x))
    && (forall x, d :: x in s.touched && d in g.Deps(x) ==> Chased(g, s, x, d))
    && (forall x :: x in s.rq ==> g.Ready(x, s.seen) && x in s.touched)
    && forall c, u :: c in s.seen && u in g.Dependents(c) ==> u in s.touched || u in s.pending
  }

  // DFSSubgraphState::push_back
  function Push(q: seq<nat>, x: nat): seq<nat> {
    if x in q then q else q + [x]
  }

  function PushUnseen(q: seq<nat>, deps: seq<nat>, seen: set<nat>): (r: seq<nat>)
    ensures forall x :: x in r <==> x in q || (x in deps && x !in seen)
    decreases |deps|
  {
    if deps == [] then q
    else
      assert forall x :: x in deps <==> x == deps[0] || x in deps[1..];
      PushUnseen(if deps[0] in seen then q else Push(q, deps[0]), deps[1..], seen)
  }

  // addToReadyQueue
  function Touch(g: Ops, s: Search): Search
    requires g.Valid() && s.pending != [] && s.pending[0] < g.Size()
  {
    var x := s.pending[0];
    Search(s.seen, PushUnseen(s.q, g.Deps(x), s.seen), if g.Ready(x, s.seen) then s.rq + [x] else s.rq, s.touched + {x}, s.pending[1..])
  }

  lemma TouchKeeps(g: Ops, s: Search)
    requires SearchInvariant(g, s) && s.pending != []
    ensures s.pending[0] < g.Size() && SearchInvariant(g, Touch(g, s))
  {
    var x := s.pending[0];
    assert x in s.pending;
    assert forall y :: y in s.pending <==> y == x || y in s.pending[1..];
    var t := Touch(g, s);
    forall y | y in t.touched ensures Waits(g, t, y) {
      assert y != x ==> Waits(g, s, y);
    }
    forall y, d | y in t.touched && d in g.Deps(y) ensures Chased(g, t, y, d) {
      if y != x {
        assert Chased(g, s, y, d);
      }
    }
  }

  // The operation at the end of the ready queue is numbered.
  function See(g: Ops, s: Search): Search
    requires g.Valid() && s.rq != [] && s.rq[|s.rq| - 1] < g.Size()
  {
    var c, rq := s.rq[|s.rq| - 1], s.rq[..|s.rq| - 1];
    if c in s.seen then s.(rq := rq) else s.(rq := rq, seen := s.seen + {c}, pending := g.Dependents(c))
  }

  lemma LastIn(rq: seq<nat>)
    requires rq != []
    ensures forall y :: y in rq ==> y == rq[|rq| - 1] || y in rq[..|rq| - 1]
    ensures forall y :: y in rq[..|rq| - 1] ==> y in rq
  {
    assert rq == rq[..|rq| - 1] + [rq[|rq| - 1]];
  }

  lemma SeeWaits(g: Ops, s: Search, x: nat)
    requires SearchInvariant(g, s) && s.rq != [] && s.pending == [] && x in s.touched
    ensures s.rq[|s.rq| - 1] < g.Size() && Waits(g, See(g, s), x)
  {
    LastIn(s.rq);
    var c := s.rq[|s.rq| - 1];
    assert c in s.rq && Waits(g, s, x);
    var n := See(g, s);
    if c !in s.seen && !g.Ready(x, s.seen) && x != c {
      var d :| d in g.Deps(x) && d !in s.seen;
      if d == c {
        g.DepKinds(x, c);
        if x !in g.Dependents(c) {
          var p := g.parent[x];
          assert p !in n.seen;
        }
      }
    }
  }

  lemma SeeKeeps(g: Ops, s: Search)
    requires SearchInvariant(g, s) && s.rq != [] && s.pending == []
    ensures s.rq[|s.rq| - 1] < g.Size() && SearchInvariant(g, See(g, s))
  {
    hide Waits;
    LastIn(s.rq);
    var c := s.rq[|s.rq| - 1];
    assert c in s.rq;
    var n := See(g, s);
    assert forall x :: x in n.seen ==> x in s.seen || x == c;
    forall x | x in n.seen ensures g.Ready(x, n.seen) {
      assert g.Ready(x, s.seen);
    }
    assert n.rq == s.rq[..|s.rq| - 1];
    forall x | x in n.rq ensures x < g.Size() && g.Ready(x, n.seen) && x in n.touched {
      assert x in s.rq[..|s.rq| - 1];
      assert x in s.rq;
      assert g.Ready(x, s.seen);
    }
    assert n.InRange(g.Size());
    assert c !in s.seen ==> n.pending == g.Dependents(c);
    forall x | x in n.touched ensures Waits(g, n, x) {
      SeeWaits(g, s, x);
    }
    forall x, d | x in n.touched && d in g.Deps(x) ensures Chased(g, n, x, d) {
      assert Chased(g, s, x, d);
    }
  }

  // The front of the subgraph queue is about to be examined.
  function Pop(s: Search): Search
    requires s.q != [] && s.pending == []
  {
    s.(q := s.q[1..], pending := [s.q[0]])
  }

  lemma PopKeeps(g: Ops, s: Search)
    requires SearchInvariant(g, s) && s.q != [] && s.pending == []
    ensures SearchInvariant(g, Pop(s))
  {
    var n := Pop(s);
    assert s.q[0] in s.q && forall y :: y in s.q <==> y == s.q[0] || y in s.q[1..];
    forall x | x in n.touched ensures Waits(g, n, x) {
      assert Waits(g, s, x);
    }
    forall x, d | x in n.touched && d in g.Deps(x) ensures Chased(g, n, x, d) {
      assert Chased(g, s, x, d);
    }
  }

  ghost predicate Finished(s: Search) {
    s.q == [] && s.rq == [] && s.pending == []
  }

  /** When both queues are empty, everything that was examined has been numbered. */
  lemma {:induction false} TouchedIsSeen(g: Ops, s: Search, rank: seq<nat>, x: nat)
    requires SearchInvariant(g, s) && Finished(s) && Ranks(rank, g.DepGraph()) && x in s.touched
    ensures x in s.seen
    decreases rank[x]
  {
    assert Waits(g, s, x);
    if x !in s.seen {
      var d :| d in g.Deps(x) && d !in s.seen;
      assert Chased(g, s, x, d);
      assert d in g.DepGraph()[x];
      TouchedIsSeen(g, s, rank, d);
    }
  }

  // Closed under dependencies and dependents.
  ghost predicate Closed(g: Ops, seen: set<nat>)
    requires g.Valid() && forall x :: x in seen ==> x < g.Size()
  {
    && SeenClosed(g, seen)
    && forall c, u :: c in seen && u in g.Dependents(c) ==> u in seen
  }

  /** So a finished search has closed `seen` under dependencies, users and region contents. */
  lemma FinishedIsClosed(g: Ops, s: Search)
    requires SearchInvariant(g, s) && Finished(s) && g.IsDag()
    ensures Closed(g, s.seen) && s.touched <= s.seen
  {
    var rank := g.DagRanks();
    forall x | x in s.touched ensures x in s.seen {
      TouchedIsSeen(g, s, rank, x);
    }
  }

  lemma ClosedStarts(g: Ops, seen: set<nat>, root: nat)
    requires g.Valid() && (forall x :: x in seen ==> x < g.Size()) && Closed(g, seen) && root < g.Size()
    ensures SearchInvariant(g, Search(seen, [root], [], seen, []))
  {
  }

  // ---------- orders ----------

  ghost predicate Different(t: seq<nat>) {
    forall i, j :: 0 <= i < j < |t| ==> t[i] != t[j]
  }

  // Every dependency of an operation in `t` comes earlier in `t`, unless it is in `old`.
  ghost predicate DepsFirst(g: Ops, t: seq<nat>, before: set<nat>)
    requires g.Valid() && forall x :: x in t ==> x < g.Size()
  {
    forall i, d {:trigger d in g.Deps(t[i])} :: 0 <= i < |t| && t[i] < g.Size() && d in g.Deps(t[i]) ==> d in before || d in t[..i]
  }

  // Dependents of what is closed are part of it.
  lemma {:induction false} ClosedUpwards(g: Ops, seen: set<nat>, x: nat, d: nat)
    requires g.Valid() && (forall y :: y in seen ==> y < g.Size()) && Closed(g, seen)
    requires x < g.Size() && d in g.Deps(x) && d in seen
    ensures x in seen
    decreases x
  {
    g.DepKinds(x, d);
    if x !in g.Dependents(d) {
      ClosedUpwards(g, seen, g.parent[x], d);
      assert x in g.children[g.parent[x]];
    }
  }

  /** What one search numbers depends on nothing an earlier search numbered, so it does not
      matter that later searches end up in front. */
  lemma NewIsIndependent(g: Ops, t: seq<nat>, before: set<nat>)
    requires g.Valid() && (forall x :: x in t ==> x < g.Size()) && (forall x :: x in before ==> x < g.Size())
    requires Closed(g, before) && DepsFirst(g, t, before) && forall x :: x in t ==> x !in before
    ensures DepsFirst(g, t, {})
  {
    forall i, d | 0 <= i < |t| && t[i] < g.Size() && d in g.Deps(t[i]) ensures d in t[..i] {
      assert t[i] in t;
      if d in before {
        ClosedUpwards(g, before, t[i], d);
      }
    }
  }

  lemma DepsFirstAppend(g: Ops, a: seq<nat>, b: seq<nat>)
    requires g.Valid() && (forall x :: x in a ==> x < g.Size()) && (forall x :: x in b ==> x < g.Size())
    requires DepsFirst(g, a, {}) && DepsFirst(g, b, {})
    ensures (forall x :: x in a + b ==> x < g.Size()) && DepsFirst(g, a + b, {})
  {
    forall i, d | 0 <= i < |a + b| && (a + b)[i] < g.Size() && d in g.Deps((a + b)[i]) ensures d in (a + b)[..i] {
      if i < |a| {
        assert (a + b)[..i] == a[..i] && (a + b)[i] == a[i];
        assert d in a[..i];
      } else {
        assert (a + b)[..i] == a + b[..i - |a|] && (a + b)[i] == b[i - |a|];
        assert d in b[..i - |a|];
      }
    }
  }

  ghost predicate Precedes(t: seq<nat>, a: nat, b: nat) {
    exists i, j :: 0 <= i < j < |t| && t[i] == a && t[j] == b
  }

  // path[0] needs path[1], which needs path[2], and so on.
  ghost predicate IsChain(g: Ops, path: seq<nat>)
    requires g.Valid()
  {
    && |path| >= 2 && (forall i :: 0 <= i < |path| ==> path[i] < g.Size())
    && forall i :: 0 < i < |path| ==> path[i] in g.defs[path[i - 1]] || path[i] == g.parent[path[i - 1]]
  }

  // Along any chain of dependencies, the end comes before the start.
  lemma {:induction false} ChainEndsFirst(g: Ops, t: seq<nat>, path: seq<nat>)
    requires g.Valid() && (forall x :: x in t ==> x < g.Size()) && DepsFirst(g, t, {})
    requires IsChain(g, path) && path[0] in t
    ensures Precedes(t, path[|path| - 1], path[0])
  {
    hide g.Deps;
    var last, front := path[|path| - 1], path[..|path| - 1];
    var j: nat, k: nat;
    if |path| == 2 {
      j :| 0 <= j < |t| && t[j] == path[0];
      k := j;
    } else {
      assert front[|front| - 1] == path[|path| - 2];
      ChainEndsFirst(g, t, front);
      j, k :| 0 <= k < j < |t| && t[k] == front[|front| - 1] && t[j] == path[0];
    }
    assert t[k] in t && last in g.Deps(t[k]) by {
      g.NeedsIsDep(t[k], last);
    }
    assert last in t[..k];
    var i :| 0 <= i < k && t[i] == last;
  }

  function Filter(t: seq<nat>, keep: seq<nat>): (r: seq<nat>)
    ensures forall x :: x in r <==> x in t && x in keep
  {
    if t == [] then []
    else
      var n := |t| - 1;
      assert t == t[..n] + [t[n]];
      Filter(t[..n], keep) + if t[n] in keep then [t[n]] else []
  }

  lemma {:induction false} FilterAppend(a: seq<nat>, b: seq<nat>, keep: seq<nat>)
    ensures Filter(a + b, keep) == Filter(a, keep) + Filter(b, keep)
  {
    if b == [] {
      assert a + b == a;
    } else {
      var n := |b| - 1;
      assert (a + b)[..|a + b| - 1] == a + b[..n] && (a + b)[|a + b| - 1] == b[n];
      FilterAppend(a, b[..n], keep);
    }
  }

  lemma {:induction false} FilterDifferent(t: seq<nat>, keep: seq<nat>)
    requires Different(t)
    ensures Different(Filter(t, keep))
  {
    if t != [] {
      var n := |t| - 1;
      FilterDifferent(t[..n], keep);
      assert t[n] !in t[..n];
      var f := Filter(t[..n], keep);
      forall i | 0 <= i < |f| ensures f[i] != t[n] {
        assert f[i] in f;
      }
    }
  }

  lemma AppendPrecedes(p: seq<nat>, q: seq<nat>, a: nat, b: nat)
    requires a in p && b in q
    ensures Precedes(p + q, a, b)
  {
    var u :| 0 <= u < |p| && p[u] == a;
    var v :| 0 <= v < |q| && q[v] == b;
    assert (p + q)[u] == a && (p + q)[|p| + v] == b;
  }

  lemma FilterPrecedes(t: seq<nat>, keep: seq<nat>, a: nat, b: nat)
    requires Precedes(t, a, b) && a in keep && b in keep
    ensures Precedes(Filter(t, keep), a, b)
  {
    var i, j :| 0 <= i < j < |t| && t[i] == a && t[j] == b;
    hide Precedes;
    assert t == t[..j] + t[j..];
    FilterAppend(t[..j], t[j..], keep);
    assert t[..j][i] == a && t[j..][0] == b;
    AppendPrecedes(Filter(t[..j], keep), Filter(t[j..], keep), a, b);
  }

  function Reversed(t: seq<nat>): (r: seq<nat>)
    ensures |r| == |t| && forall i :: 0 <= i < |r| ==> r[i] == t[|t| - 1 - i]
  {
    seq(|t|, i requires 0 <= i < |t| => t[|t| - 1 - i])
  }

  lemma ReversedAppend(a: seq<nat>, b: seq<nat>)
    ensures Reversed(a + b) == Reversed(b) + Reversed(a)
    ensures Reversed(Reversed(a)) == a
  {
  }

  /** The result lists every operation to sort once, and an operation after everything it depends
      on, directly or through other operations, sorted or not. */
  ghost predicate Sorted(g: Ops, toSort: seq<nat>, r: seq<nat>)
    requires g.Valid()
  {
    && multiset(r) == multiset(toSort)
    && forall path :: IsChain(g, path) && path[0] in toSort && path[|path| - 1] in toSort ==> Precedes(r, path[|path| - 1], path[0])
  }

  lemma {:induction false} SameElements(a: seq<nat>, b: seq<nat>)
    requires Different(a) && Different(b) && forall x :: x in a <==> x in b
    ensures multiset(a) == multiset(b)
  {
    forall x ensures multiset(a)[x] == multiset(b)[x] {
      CountOne(a, x);
      CountOne(b, x);
    }
  }

  lemma {:induction false} CountOne(a: seq<nat>, x: nat)
    requires Different(a)
    ensures multiset(a)[x] == if x in a then 1 else 0
  {
    if a != [] {
      assert a == [a[0]] + a[1..];
      CountOne(a[1..], x);
    }
  }

  lemma OrderSorts(g: Ops, toSort: seq<nat>, order: seq<nat>)
    requires g.Valid() && (forall x :: x in order ==> x < g.Size()) && DepsFirst(g, order, {}) && Different(order)
    requires Different(toSort) && forall x :: x in toSort ==> x in order
    ensures Sorted(g, toSort, Filter(order, toSort))
  {
    hide g.Deps, Precedes, DepsFirst;
    FilterDifferent(order, toSort);
    SameElements(Filter(order, toSort), toSort);
    forall path | IsChain(g, path) && path[0] in toSort && path[|path| - 1] in toSort
      ensures Precedes(Filter(order, toSort), path[|path| - 1], path[0])
    {
      ChainEndsFirst(g, order, path);
      FilterPrecedes(order, toSort, path[|path| - 1], path[0]);
    }
  }
}
