/** Acyclic graphs, given by the list of nodes that follow each node, and the number of paths
out of a node as a bound on work that follows edges. */
module Acyclic {
  type Graph = seq<seq<nat>>

  ghost predicate IsGraph(next: Graph) {
    forall b, s :: 0 <= b < |next| && s in next[b] ==> s < |next|
  }

  function Sum(w: seq<nat>, t: seq<nat>): nat
    requires forall i :: 0 <= i < |t| ==> t[i] < |w|
  {
    if t == [] then 0 else w[t[0]] + Sum(w, t[1..])
  }

  lemma {:induction false} SumAppend(w: seq<nat>, a: seq<nat>, b: seq<nat>)
    requires forall i :: 0 <= i < |a| ==> a[i] < |w|
    requires forall i :: 0 <= i < |b| ==> b[i] < |w|
    ensures Sum(w, a + b) == Sum(w, a) + Sum(w, b)
  {
    if a == [] {
      assert a + b == b;
    } else {
      assert (a + b)[1..] == a[1..] + b;
      SumAppend(w, a[1..], b);
    }
  }

  ghost predicate Ranks(rank: seq<nat>, next: Graph) {
    IsGraph(next) && |rank| == |next| && forall b, s :: 0 <= b < |next| && s in next[b] ==> rank[s] < rank[b]
  }

  ghost predicate IsAcyclic(next: Graph) {
    exists rank :: Ranks(rank, next)
  }

  // The number of paths out of b.
  ghost function Paths(next: Graph, rank: seq<nat>, b: nat): nat
    requires Ranks(rank, next) && b < |next|
    decreases rank[b], 0
  {
    assert forall s :: s in next[b] ==> s < |next| && rank[s] < rank[b];
    1 + PathsFrom(next, rank, next[b], rank[b])
  }

  ghost function PathsFrom(next: Graph, rank: seq<nat>, t: seq<nat>, bound: nat): nat
    requires Ranks(rank, next) && forall s :: s in t ==> s < |next| && rank[s] < bound
    decreases bound, 0, |t|
  {
    if t == [] then 0
    else
      assert t[0] in t && forall s :: s in t[1..] ==> s in t;
      Paths(next, rank, t[0]) + PathsFrom(next, rank, t[1..], bound)
  }

  ghost function PathCounts(next: Graph, rank: seq<nat>): (w: seq<nat>)
    requires Ranks(rank, next)
    ensures |w| == |next| && forall b :: 0 <= b < |w| ==> w[b] == Paths(next, rank, b)
  {
    seq(|next|, b requires 0 <= b < |next| => Paths(next, rank, b))
  }

  lemma {:induction false} PathsFromIsSum(next: Graph, rank: seq<nat>, t: seq<nat>, bound: nat)
    requires Ranks(rank, next) && forall s :: s in t ==> s < |next| && rank[s] < bound
    ensures forall i :: 0 <= i < |t| ==> t[i] < |PathCounts(next, rank)|
    ensures PathsFrom(next, rank, t, bound) == Sum(PathCounts(next, rank), t)
  {
    assert forall i :: 0 <= i < |t| ==> t[i] in t;
    if t != [] {
      PathsFromIsSum(next, rank, t[1..], bound);
    }
  }

  // ---------- cycles ----------

  // A walk along edges.
  ghost predicate IsWalk(next: Graph, t: seq<nat>) {
    && |t| > 0
    && (forall i :: 0 <= i < |t| ==> t[i] < |next|)
    && forall i :: 0 < i < |t| ==> t[i] in next[t[i - 1]]
  }

  ghost predicate IsCycle(next: Graph, t: seq<nat>) {
    IsWalk(next, t) && |t| > 1 && t[0] == t[|t| - 1]
  }

  // The most edges that a walk of at most n edges from b has.
  ghost function Height(next: Graph, b: nat, n: nat): (h: nat)
    requires IsGraph(next) && b < |next|
    ensures h <= n
    decreases n, 0
  {
    if n == 0 then 0
    else
      assert forall s :: s in next[b] ==> s < |next|;
      HeightFrom(next, next[b], n)
  }

  ghost function HeightFrom(next: Graph, t: seq<nat>, n: nat): (h: nat)
    requires IsGraph(next) && n > 0 && forall s :: s in t ==> s < |next|
    ensures h <= n
    decreases n - 1, 1, |t|
  {
    if t == [] then 0
    else
      assert t[0] in t && forall s :: s in t[1..] ==> s in t;
      var first, rest := 1 + Height(next, t[0], n - 1), HeightFrom(next, t[1..], n);
      if first > rest then first else rest
  }

  // Every successor's height counts.
  lemma {:induction false} HeightCovers(next: Graph, t: seq<nat>, n: nat, s: nat)
    requires IsGraph(next) && n > 0 && (forall x :: x in t ==> x < |next|) && s in t
    ensures HeightFrom(next, t, n) >= 1 + Height(next, s, n - 1)
  {
    assert t[0] in t && forall x :: x in t[1..] ==> x in t;
    if s != t[0] {
      HeightCovers(next, t[1..], n, s);
    }
  }

  // A walk is no longer than the height.
  lemma {:induction false} WalkWithinHeight(next: Graph, t: seq<nat>, n: nat)
    requires IsGraph(next) && IsWalk(next, t) && |t| - 1 <= n
    ensures Height(next, t[0], n) >= |t| - 1
    decreases n
  {
    if |t| > 1 {
      var rest := t[1..];
      assert t[1] in next[t[0]] && forall i :: 0 <= i < |rest| ==> rest[i] == t[i + 1];
      assert forall i :: 0 < i < |rest| ==> rest[i] in next[rest[i - 1]];
      WalkWithinHeight(next, rest, n - 1);
      HeightCovers(next, next[t[0]], n, t[1]);
    }
  }

  // A walk as long as the height says.
  lemma {:induction false} WalkOfHeight(next: Graph, b: nat, n: nat) returns (t: seq<nat>)
    requires IsGraph(next) && b < |next|
    ensures IsWalk(next, t) && t[0] == b && |t| == Height(next, b, n) + 1
    decreases n, 0
  {
    t := [b];
    if Height(next, b, n) > 0 {
      var s := HighestOf(next, next[b], n);
      var rest := WalkOfHeight(next, s, n - 1);
      t := [b] + rest;
    }
  }

  lemma {:induction false} HighestOf(next: Graph, t: seq<nat>, n: nat) returns (s: nat)
    requires IsGraph(next) && n > 0 && (forall x :: x in t ==> x < |next|) && HeightFrom(next, t, n) > 0
    ensures s in t && HeightFrom(next, t, n) == 1 + Height(next, s, n - 1)
    decreases n - 1, 1, |t|
  {
    assert t[0] in t && forall x :: x in t[1..] ==> x in t;
    s := t[0];
    if HeightFrom(next, t, n) != 1 + Height(next, t[0], n - 1) {
      s := HighestOf(next, t[1..], n);
    }
  }

  // More than n numbers below n: two of them are the same.
  lemma {:induction false} TwoAlike(t: seq<nat>, n: nat) returns (i: nat, j: nat)
    requires |t| > n && forall k :: 0 <= k < |t| ==> t[k] < n
    ensures i < j < |t| && t[i] == t[j]
    decreases n
  {
    var last := |t| - 1;
    if k :| 0 <= k < last && t[k] == t[last] {
      return k, last;
    }
    // rename n - 1 to the last number, which nothing else uses
    var u := seq(last, k requires 0 <= k < last => if t[k] == n - 1 then t[last] else t[k]);
    i, j := TwoAlike(u, n - 1);
  }

  lemma CycleInWalk(next: Graph, t: seq<nat>) returns (c: seq<nat>)
    requires IsWalk(next, t) && |t| > |next|
    ensures IsCycle(next, c)
  {
    var i, j := TwoAlike(t, |next|);
    c := t[i..j + 1];
    assert forall k :: 0 <= k < |c| ==> c[k] == t[i + k];
  }

  // Without a cycle, a walk visits no node twice.
  lemma WalkIsShort(next: Graph, t: seq<nat>)
    requires IsWalk(next, t) && forall c :: !IsCycle(next, c)
    ensures |t| <= |next|
  {
    if |t| > |next| {
      var c := CycleInWalk(next, t);
    }
  }

  // A walk goes down the ranks.
  lemma {:induction false} WalkDescends(next: Graph, rank: seq<nat>, t: seq<nat>)
    requires Ranks(rank, next) && IsWalk(next, t)
    ensures |t| > 1 ==> rank[t[|t| - 1]] < rank[t[0]]
  {
    if |t| > 2 {
      WalkDescends(next, rank, t[..|t| - 1]);
    }
  }

  /** A graph can be ranked exactly if it has no cycle. */
  lemma AcyclicIff(next: Graph)
    requires IsGraph(next)
    ensures IsAcyclic(next) <==> forall c :: !IsCycle(next, c)
  {
    if rank :| Ranks(rank, next) {
      forall c ensures !IsCycle(next, c) {
        if IsWalk(next, c) {
          WalkDescends(next, rank, c);
        }
      }
    }
    if forall c :: !IsCycle(next, c) {
      var n := |next|;
      var rank := seq(n, b requires 0 <= b < n => Height(next, b, n));
      forall b, s | 0 <= b < n && s in next[b] ensures rank[s] < rank[b] {
        var t := WalkOfHeight(next, s, n);
        var u := [b] + t;
        assert forall i :: 0 < i < |u| ==> u[i] in next[u[i - 1]];
        assert IsWalk(next, u);
        WalkIsShort(next, u);
        WalkWithinHeight(next, u, n);
      }
      assert Ranks(rank, next);
    }
  }
}
