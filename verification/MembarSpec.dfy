/** Shared memory accesses, barriers and what it means for a run to be free of conflicts
(include/triton/Analysis/Membar.h, lib/Analysis/Membar.cpp:101-185). */
module MembarSpec {
  import opened Intervals
  import opened Wrappers

  type OpId = nat

  /** `Access` has the shared memory intervals an operation reads and writes; an operation with a
      scratch buffer starts by writing it, synchronizes internally, and ends by reading it. */
  datatype Op = Barrier | AsyncWait | Access(loads: set<Interval>, stores: set<Interval>, scratch: Option<Interval>)

  datatype Instr = Instr(id: OpId, op: Op)

  const BARRIER := Instr(0, Barrier)

  type Footprint = set<(Interval, OpId)>

  datatype BlockInfo = BlockInfo(loads: Footprint, stores: Footprint) {
    function Join(other: BlockInfo): BlockInfo {
      BlockInfo(loads + other.loads, stores + other.stores)
    }

    predicate Within(other: BlockInfo) {
      loads <= other.loads && stores <= other.stores
    }
  }

  const EMPTY := BlockInfo({}, {})

  // True for pairs of operations that the backend knows need no barrier between them.
  type Filter = (OpId, OpId) -> bool

  predicate Clash(filter: Filter, p: (Interval, OpId), q: (Interval, OpId)) {
    p.0.Intersects(q.0) && !filter(p.1, q.1)
  }

  predicate Meets(filter: Filter, a: Footprint, b: Footprint) {
    exists p, q :: p in a && q in b && Clash(filter, p, q)
  }

  // BlockInfo::isIntersected: read after write, write after read, write after write.
  predicate Conflicts(filter: Filter, a: BlockInfo, b: BlockInfo) {
    Meets(filter, a.stores, b.loads) || Meets(filter, a.loads, b.stores) || Meets(filter, a.stores, b.stores)
  }

  function Tagged(s: set<Interval>, id: OpId): Footprint {
    set i | i in s :: (i, id)
  }

  // ---------- what an operation does ----------

  // Does nothing stay pending across this operation?
  predicate Syncs(x: Instr) {
    x.op.Barrier? || (x.op.Access? && x.op.scratch.Some?)
  }

  // The accesses that must not conflict with what is pending before the operation.
  function First(x: Instr): BlockInfo {
    match x.op
    case Barrier => EMPTY
    case AsyncWait => EMPTY
    case Access(r, w, None) => BlockInfo(Tagged(r, x.id), Tagged(w, x.id))
    case Access(r, w, Some(s)) => BlockInfo(Tagged(r, x.id), Tagged(w, x.id) + {(s, x.id)})
  }

  // The accesses the operation leaves pending.
  function Last(x: Instr): BlockInfo {
    match x.op
    case Barrier => EMPTY
    case AsyncWait => EMPTY
    case Access(r, w, None) => BlockInfo(Tagged(r, x.id), Tagged(w, x.id))
    case Access(r, w, Some(s)) => BlockInfo(Tagged(r, x.id) + {(s, x.id)}, Tagged(w, x.id) + {(s, x.id)})
  }

  // What is pending after one operation.
  function Pass(x: Instr, pending: BlockInfo): BlockInfo {
    if Syncs(x) then Last(x) else pending.Join(Last(x))
  }

  function Flow(t: seq<Instr>, pending: BlockInfo): BlockInfo {
    if t == [] then pending else Flow(t[1..], Pass(t[0], pending))
  }

  /** No operation of `t` conflicts with what is pending when it starts. */
  ghost predicate Clean(filter: Filter, t: seq<Instr>, pending: BlockInfo) {
    t == [] || (!Conflicts(filter, pending, First(t[0])) && Clean(filter, t[1..], Pass(t[0], pending)))
  }

  // ---------- conflict-freedom, stated on positions ----------

  ghost predicate SyncIn(t: seq<Instr>, a: nat, b: nat) {
    exists k :: a <= k < b && k < |t| && Syncs(t[k])
  }

  /** Between any two operations whose accesses conflict there is a barrier, or an operation
      that synchronizes internally. */
  ghost predicate Separated(filter: Filter, t: seq<Instr>) {
    forall i, j :: 0 <= i < j < |t| && Conflicts(filter, Last(t[i]), First(t[j])) ==> SyncIn(t, i + 1, j)
  }

  ghost predicate SeparatedFrom(filter: Filter, t: seq<Instr>, pending: BlockInfo) {
    forall j :: 0 <= j < |t| && Conflicts(filter, pending, First(t[j])) ==> SyncIn(t, 0, j)
  }

  lemma MeetsSplit(filter: Filter, a: Footprint, b: Footprint, c: Footprint)
    ensures Meets(filter, a + b, c) <==> Meets(filter, a, c) || Meets(filter, b, c)
  {
    if Meets(filter, a, c) {
      var p, q :| p in a && q in c && Clash(filter, p, q);
      assert p in a + b;
    }
    if Meets(filter, b, c) {
      var p, q :| p in b && q in c && Clash(filter, p, q);
      assert p in a + b;
    }
  }

  lemma ConflictsSplit(filter: Filter, a: BlockInfo, b: BlockInfo, c: BlockInfo)
    ensures Conflicts(filter, a.Join(b), c) <==> Conflicts(filter, a, c) || Conflicts(filter, b, c)
  {
    hide Meets;
    MeetsSplit(filter, a.stores, b.stores, c.loads);
    MeetsSplit(filter, a.loads, b.loads, c.stores);
    MeetsSplit(filter, a.stores, b.stores, c.stores);
  }

  lemma NothingConflicts(filter: Filter, c: BlockInfo)
    ensures !Conflicts(filter, EMPTY, c) && !Conflicts(filter, c, EMPTY)
  {
  }

  lemma ConflictsMonotone(filter: Filter, a: BlockInfo, b: BlockInfo, c: BlockInfo)
    requires a.Within(b) && Conflicts(filter, a, c)
    ensures Conflicts(filter, b, c)
  {
    hide Conflicts;
    assert b == b.Join(a);
    ConflictsSplit(filter, b, a, c);
  }

  lemma SyncInTail(t: seq<Instr>, a: nat, b: nat)
    requires |t| > 0 && a > 0 && b > 0
    ensures SyncIn(t, a, b) <==> SyncIn(t[1..], a - 1, b - 1)
  {
    if SyncIn(t, a, b) {
      var k :| a <= k < b && k < |t| && Syncs(t[k]);
      assert t[1..][k - 1] == t[k];
    }
    if SyncIn(t[1..], a - 1, b - 1) {
      var k :| a - 1 <= k < b - 1 && k < |t[1..]| && Syncs(t[1..][k]);
      assert t[k + 1] == t[1..][k];
    }
  }

  lemma SyncInHead(t: seq<Instr>, b: nat)
    requires |t| > 0 && b > 0
    ensures SyncIn(t, 0, b) <==> Syncs(t[0]) || SyncIn(t[1..], 0, b - 1)
  {
    SyncInTail(t, 1, b);
    if SyncIn(t, 0, b) {
      var k :| 0 <= k < b && k < |t| && Syncs(t[k]);
      assert k > 0 ==> SyncIn(t, 1, b);
    }
  }

  // The step of CleanIffSeparated, at one later operation.
  lemma HeadAndTail(filter: Filter, t: seq<Instr>, pending: BlockInfo, j: nat)
    requires 0 < j < |t|
    ensures var c, r := First(t[j]), t[1..];
            (Conflicts(filter, Pass(t[0], pending), First(r[j - 1])) ==> SyncIn(r, 0, j - 1)) <==>
            (Conflicts(filter, pending, c) ==> SyncIn(t, 0, j)) && (Conflicts(filter, Last(t[0]), c) ==> SyncIn(t, 1, j))
  {
    hide Conflicts, Last, First;
    assert t[1..][j - 1] == t[j];
    ConflictsSplit(filter, pending, Last(t[0]), First(t[j]));
    SyncInHead(t, j);
    SyncInTail(t, 1, j);
  }

  /** Stepping through the operations finds exactly the unseparated pairs. */
  lemma {:induction false} CleanIffSeparated(filter: Filter, t: seq<Instr>, pending: BlockInfo)
    ensures Clean(filter, t, pending) <==> SeparatedFrom(filter, t, pending) && Separated(filter, t)
  {
    hide Conflicts, Last, First, SyncIn, Pass;
    if t != [] {
      var r := t[1..];
      CleanIffSeparated(filter, r, Pass(t[0], pending));
      SeparatedTail(filter, t);
      SeparatedFromTail(filter, t, pending);
    }
  }

  ghost predicate HeadSeparated(filter: Filter, t: seq<Instr>)
    requires |t| > 0
  {
    forall j :: 0 < j < |t| && Conflicts(filter, Last(t[0]), First(t[j])) ==> SyncIn(t, 1, j)
  }

  lemma SeparatedTail(filter: Filter, t: seq<Instr>)
    requires |t| > 0
    ensures Separated(filter, t) <==> Separated(filter, t[1..]) && HeadSeparated(filter, t)
  {
    hide Conflicts, Last, First, SyncIn;
    var r := t[1..];
    assert forall i :: 0 <= i < |r| ==> r[i] == t[i + 1];
    if Separated(filter, t) {
      forall i, j | 0 <= i < j < |r| && Conflicts(filter, Last(r[i]), First(r[j])) ensures SyncIn(r, i + 1, j) {
        assert Conflicts(filter, Last(t[i + 1]), First(t[j + 1]));
        SyncInTail(t, i + 2, j + 1);
      }
    }
    if Separated(filter, r) && HeadSeparated(filter, t) {
      forall i, j | 0 <= i < j < |t| && Conflicts(filter, Last(t[i]), First(t[j])) ensures SyncIn(t, i + 1, j) {
        if i > 0 {
          assert Conflicts(filter, Last(r[i - 1]), First(r[j - 1]));
          SyncInTail(t, i + 1, j);
        }
      }
    }
  }

  lemma SeparatedFromTail(filter: Filter, t: seq<Instr>, pending: BlockInfo)
    requires |t| > 0
    ensures SeparatedFrom(filter, t[1..], Pass(t[0], pending)) && !Conflicts(filter, pending, First(t[0])) <==>
            SeparatedFrom(filter, t, pending) && HeadSeparated(filter, t)
  {
    hide Conflicts, Last, First, SyncIn, Pass;
    var r := t[1..];
    NoSyncInNothing(t);
    if SeparatedFrom(filter, t, pending) && HeadSeparated(filter, t) {
      forall j | 0 <= j < |r| && Conflicts(filter, Pass(t[0], pending), First(r[j])) ensures SyncIn(r, 0, j) {
        HeadAndTail(filter, t, pending, j + 1);
      }
    }
    if SeparatedFrom(filter, r, Pass(t[0], pending)) && !Conflicts(filter, pending, First(t[0])) {
      forall j | 0 <= j < |t| && Conflicts(filter, pending, First(t[j])) ensures SyncIn(t, 0, j) {
        HeadAndTail(filter, t, pending, j);
      }
      forall j | 0 < j < |t| && Conflicts(filter, Last(t[0]), First(t[j])) ensures SyncIn(t, 1, j) {
        HeadAndTail(filter, t, pending, j);
      }
    }
  }

  lemma NoSyncInNothing(t: seq<Instr>)
    ensures !SyncIn(t, 0, 0)
  {
  }

  // ---------- runs put together ----------

  lemma {:induction false} FlowAppend(a: seq<Instr>, b: seq<Instr>, pending: BlockInfo)
    ensures Flow(a + b, pending) == Flow(b, Flow(a, pending))
  {
    hide Pass;
    if a == [] {
      assert a + b == b;
    } else {
      assert (a + b)[1..] == a[1..] + b;
      FlowAppend(a[1..], b, Pass(a[0], pending));
    }
  }

  lemma {:induction false} CleanAppend(filter: Filter, a: seq<Instr>, b: seq<Instr>, pending: BlockInfo)
    ensures Clean(filter, a + b, pending) <==> Clean(filter, a, pending) && Clean(filter, b, Flow(a, pending))
  {
    hide Pass, Conflicts, First;
    if a == [] {
      assert a + b == b;
    } else {
      assert (a + b)[1..] == a[1..] + b;
      CleanAppend(filter, a[1..], b, Pass(a[0], pending));
    }
  }

  lemma PassMonotone(x: Instr, a: BlockInfo, b: BlockInfo)
    requires a.Within(b)
    ensures Pass(x, a).Within(Pass(x, b))
  {
    hide Last;
  }

  lemma {:induction false} FlowMonotone(t: seq<Instr>, a: BlockInfo, b: BlockInfo)
    requires a.Within(b)
    ensures Flow(t, a).Within(Flow(t, b))
  {
    hide Pass;
    if t != [] {
      PassMonotone(t[0], a, b);
      FlowMonotone(t[1..], Pass(t[0], a), Pass(t[0], b));
    }
  }

  // What is safe with more pending is safe with less.
  lemma {:induction false} CleanMonotone(filter: Filter, t: seq<Instr>, a: BlockInfo, b: BlockInfo)
    requires a.Within(b) && Clean(filter, t, b)
    ensures Clean(filter, t, a)
  {
    hide Pass, Conflicts, First;
    if t != [] {
      PassMonotone(t[0], a, b);
      CleanMonotone(filter, t[1..], Pass(t[0], a), Pass(t[0], b));
      if Conflicts(filter, a, First(t[0])) {
        ConflictsMonotone(filter, a, b, First(t[0]));
      }
    }
  }
}
