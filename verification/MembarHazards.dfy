/** Hazards between shared memory accesses, in terms of operations and interval bounds
(include/triton/Analysis/Membar.h:26-75, lib/Analysis/Membar.cpp:101-185). */
module MembarHazards {
  import opened Intervals
  import opened Wrappers
  import opened MembarSpec
  import opened Membar

  // ---------- what an operation does to an interval ----------

  // A scratch buffer is written first, and has been written and read at the end.
  ghost predicate ReadsFirst(x: Instr, q: Interval) {
    x.op.Access? && q in x.op.loads
  }

  ghost predicate Writes(x: Instr, q: Interval) {
    x.op.Access? && (q in x.op.stores || x.op.scratch == Some(q))
  }

  ghost predicate ReadsLast(x: Instr, p: Interval) {
    x.op.Access? && (p in x.op.loads || x.op.scratch == Some(p))
  }

  // Nothing stays pending across the operation.
  ghost predicate Separates(x: Instr) {
    x.op.Barrier? || (x.op.Access? && x.op.scratch.Some?)
  }

  /** Read after write, write after read, or write after write, of memory that both touch. */
  ghost predicate Hazard(x: Instr, y: Instr, p: Interval, q: Interval) {
    && p.start < q.end && q.start < p.end
    && ((Writes(x, p) && ReadsFirst(y, q)) || (ReadsLast(x, p) && Writes(y, q)) || (Writes(x, p) && Writes(y, q)))
  }

  ghost predicate SeparatorBetween(t: seq<Instr>, i: nat, j: nat) {
    exists k :: i < k < j && k < |t| && Separates(t[k])
  }

  /** Between any two operations with a hazard that is not filtered there is a barrier or an
      operation with a scratch buffer. */
  ghost predicate Guarded(filter: Filter, t: seq<Instr>) {
    forall i, j, p, q :: 0 <= i < j < |t| && Hazard(t[i], t[j], p, q) && !filter(t[i].id, t[j].id) ==> SeparatorBetween(t, i, j)
  }

  // A barrier follows every async wait directly.
  ghost predicate Fenced(t: seq<Instr>) {
    forall i :: 0 <= i < |t| && t[i].op.AsyncWait? ==> i + 1 < |t| && t[i + 1].op.Barrier?
  }

  // ---------- the pending sets say the same ----------

  lemma LastHas(x: Instr, p: Interval, id: OpId)
    ensures (p, id) in Last(x).stores <==> id == x.id && Writes(x, p)
    ensures (p, id) in Last(x).loads <==> id == x.id && ReadsLast(x, p)
  {
  }

  lemma FirstHas(x: Instr, q: Interval, id: OpId)
    ensures (q, id) in First(x).stores <==> id == x.id && Writes(x, q)
    ensures (q, id) in First(x).loads <==> id == x.id && ReadsFirst(x, q)
  {
  }

  /** What is pending endangers the operation: some access of it may have to wait. */
  ghost predicate Endangers(filter: Filter, info: BlockInfo, y: Instr) {
    exists p, id, q :: EndangersAt(filter, info, y, p, id, q)
  }

  ghost predicate EndangersAt(filter: Filter, info: BlockInfo, y: Instr, p: Interval, id: OpId, q: Interval) {
    && p.start < q.end && q.start < p.end && !filter(id, y.id)
    && (((p, id) in info.stores && (ReadsFirst(y, q) || Writes(y, q))) || ((p, id) in info.loads && Writes(y, q)))
  }

  lemma ConflictsAt(filter: Filter, info: BlockInfo, y: Instr, p: Interval, id: OpId, q: Interval)
    requires EndangersAt(filter, info, y, p, id, q)
    ensures Conflicts(filter, info, First(y))
  {
    FirstHas(y, q, y.id);
    assert Clash(filter, (p, id), (q, y.id));
  }

  lemma EndangeredBy(filter: Filter, a: Footprint, info: BlockInfo, b: Footprint, y: Instr)
    requires Meets(filter, a, b)
    requires (a == info.stores && (b == First(y).loads || b == First(y).stores)) || (a == info.loads && b == First(y).stores)
    ensures Endangers(filter, info, y)
  {
    var u, v :| u in a && v in b && Clash(filter, u, v);
    FirstHas(y, v.0, v.1);
    assert u == (u.0, u.1) && v == (v.0, v.1);
    assert EndangersAt(filter, info, y, u.0, u.1, v.0);
  }

  lemma ConflictsIffEndangers(filter: Filter, info: BlockInfo, y: Instr)
    ensures Conflicts(filter, info, First(y)) <==> Endangers(filter, info, y)
  {
    hide Meets, First, EndangersAt;
    if Conflicts(filter, info, First(y)) {
      if Meets(filter, info.stores, First(y).loads) {
        EndangeredBy(filter, info.stores, info, First(y).loads, y);
      } else if Meets(filter, info.loads, First(y).stores) {
        EndangeredBy(filter, info.loads, info, First(y).stores, y);
      } else {
        EndangeredBy(filter, info.stores, info, First(y).stores, y);
      }
    }
    if p, id, q :| EndangersAt(filter, info, y, p, id, q) {
      ConflictsAt(filter, info, y, p, id, q);
    }
  }

  /** Two operations conflict exactly if there is a hazard that is not filtered. */
  lemma ConflictsIffHazard(filter: Filter, x: Instr, y: Instr)
    ensures Conflicts(filter, Last(x), First(y)) <==> !filter(x.id, y.id) && exists p, q :: Hazard(x, y, p, q)
  {
    hide Conflicts;
    ConflictsIffEndangers(filter, Last(x), y);
    if p, id, q :| EndangersAt(filter, Last(x), y, p, id, q) {
      LastHas(x, p, id);
      assert Hazard(x, y, p, q);
    }
    if p, q :| Hazard(x, y, p, q) && !filter(x.id, y.id) {
      LastHas(x, p, x.id);
      assert EndangersAt(filter, Last(x), y, p, x.id, q);
    }
  }

  lemma SyncInIff(t: seq<Instr>, i: nat, j: nat)
    ensures SyncIn(t, i + 1, j) <==> SeparatorBetween(t, i, j)
  {
    if SyncIn(t, i + 1, j) {
      var k :| i + 1 <= k < j && k < |t| && Syncs(t[k]);
      assert Separates(t[k]);
    }
    if k :| i < k < j && k < |t| && Separates(t[k]) {
      assert Syncs(t[k]);
    }
  }

  /** A run is separated exactly if it is guarded. */
  lemma SeparatedIffGuarded(filter: Filter, t: seq<Instr>)
    ensures Separated(filter, t) <==> Guarded(filter, t)
  {
    hide Conflicts, First, Last, SyncIn, SeparatorBetween, Hazard;
    if Separated(filter, t) {
      forall i, j, p, q | 0 <= i < j < |t| && Hazard(t[i], t[j], p, q) && !filter(t[i].id, t[j].id) ensures SeparatorBetween(t, i, j) {
        ConflictsIffHazard(filter, t[i], t[j]);
        SyncInIff(t, i, j);
      }
    }
    if Guarded(filter, t) {
      forall i, j | 0 <= i < j < |t| && Conflicts(filter, Last(t[i]), First(t[j])) ensures SyncIn(t, i + 1, j) {
        ConflictsIffHazard(filter, t[i], t[j]);
        SyncInIff(t, i, j);
      }
    }
  }

  lemma {:induction false} WaitsFencedIff(t: seq<Instr>)
    ensures WaitsFenced(t) <==> Fenced(t)
  {
    if t != [] {
      var rest := t[1..];
      WaitsFencedIff(rest);
      assert forall i :: 0 <= i < |rest| ==> rest[i] == t[i + 1];
      if Fenced(t) {
        assert t[0].op.AsyncWait? ==> t[1].op.Barrier?;
        forall i | 0 <= i < |rest| && rest[i].op.AsyncWait? ensures i + 1 < |rest| && rest[i + 1].op.Barrier? {
          assert t[i + 1].op.AsyncWait?;
        }
      }
      if WaitsFenced(t) {
        forall i | 0 <= i < |t| && t[i].op.AsyncWait? ensures i + 1 < |t| && t[i + 1].op.Barrier? {
          assert i > 0 ==> rest[i - 1].op.AsyncWait?;
        }
      }
    }
  }

  // ---------- what is pending after a run ----------

  // Operation i of the run has left p written (or read), and no separator follows it.
  ghost predicate LeftWritten(t: seq<Instr>, i: nat, p: Interval, id: OpId) {
    i < |t| && t[i].id == id && Writes(t[i], p) && !SeparatorBetween(t, i, |t|)
  }

  ghost predicate LeftRead(t: seq<Instr>, i: nat, p: Interval, id: OpId) {
    i < |t| && t[i].id == id && ReadsLast(t[i], p) && !SeparatorBetween(t, i, |t|)
  }

  lemma SnocSeparator(t: seq<Instr>, x: Instr, i: nat)
    requires i < |t|
    ensures SeparatorBetween(t + [x], i, |t| + 1) <==> SeparatorBetween(t, i, |t|) || Separates(x)
  {
    if k :| i < k < |t| && Separates(t[k]) {
      assert (t + [x])[k] == t[k];
    }
    if Separates(x) {
      assert (t + [x])[|t|] == x;
    }
    if k :| i < k < |t| + 1 && Separates((t + [x])[k]) {
      assert k < |t| ==> t[k] == (t + [x])[k];
    }
  }

  lemma NothingAfterLast(t: seq<Instr>, x: Instr)
    ensures !SeparatorBetween(t + [x], |t|, |t| + 1)
  {
  }

  /** What is pending after a run are exactly the accesses that no separator follows. */
  lemma {:induction false} PendingIff(t: seq<Instr>, p: Interval, id: OpId)
    ensures (p, id) in Flow(t, EMPTY).stores <==> exists i: nat :: LeftWritten(t, i, p, id)
    ensures (p, id) in Flow(t, EMPTY).loads <==> exists i: nat :: LeftRead(t, i, p, id)
    decreases |t|
  {
    hide Writes, ReadsLast, Last, SeparatorBetween;
    if t != [] {
      var n := |t| - 1;
      var front, x := t[..n], t[n];
      assert t == front + [x];
      PendingIff(front, p, id);
      FlowAppend(front, [x], EMPTY);
      CleanOne((_, _) => false, x, Flow(front, EMPTY));
      LastHas(x, p, id);
      NothingAfterLast(front, x);
      PendingSnoc(front, x, p, id);
    }
  }

  lemma PendingSnoc(t: seq<Instr>, x: Instr, p: Interval, id: OpId)
    ensures (exists i: nat :: LeftWritten(t + [x], i, p, id)) <==>
            (id == x.id && Writes(x, p)) || (!Separates(x) && exists i: nat :: LeftWritten(t, i, p, id))
    ensures (exists i: nat :: LeftRead(t + [x], i, p, id)) <==>
            (id == x.id && ReadsLast(x, p)) || (!Separates(x) && exists i: nat :: LeftRead(t, i, p, id))
  {
    hide Writes, ReadsLast, SeparatorBetween, Separates;
    var s := t + [x];
    NothingAfterLast(t, x);
    assert s[|t|] == x;
    forall i: nat | i < |t| ensures s[i] == t[i] && (SeparatorBetween(s, i, |s|) <==> SeparatorBetween(t, i, |t|) || Separates(x)) {
      SnocSeparator(t, x, i);
    }
    assert id == x.id && Writes(x, p) ==> LeftWritten(s, |t|, p, id);
    assert id == x.id && ReadsLast(x, p) ==> LeftRead(s, |t|, p, id);
    if i: nat :| LeftWritten(t, i, p, id) && !Separates(x) {
      assert LeftWritten(s, i, p, id);
    }
    if i: nat :| LeftRead(t, i, p, id) && !Separates(x) {
      assert LeftRead(s, i, p, id);
    }
    if i: nat :| LeftWritten(s, i, p, id) {
      assert i < |t| ==> LeftWritten(t, i, p, id);
    }
    if i: nat :| LeftRead(s, i, p, id) {
      assert i < |t| ==> LeftRead(t, i, p, id);
    }
  }
}
