/** A loop of one block, and exactly when MembarAnalysis::resolve ends on it
(lib/Analysis/Membar.cpp:44-71). */
module MembarLoop {
  import opened Acyclic
  import opened Intervals
  import opened Wrappers
  import opened MembarSpec
  import opened Membar
  import opened MembarResolve
  import opened MembarBounds
  import opened MembarDrains

  // Block 0 is the entry, block 1 branches to itself or to block 2, block 2 returns.
  const LOOP: Cfg := [[1], [1, 2], []]

  // ---------- blocks that do not synchronize ----------

  // Position of the first operation that conflicts with `all`, or the number of operations.
  function FirstConflict(filter: Filter, t: seq<Instr>, all: BlockInfo): (i: nat)
    ensures i <= |t|
  {
    if t == [] || Conflicts(filter, all, First(t[0])) then 0 else 1 + FirstConflict(filter, t[1..], all)
  }

  // A visit inserts a barrier, or leaves the block alone.
  lemma {:induction false} RewriteSyncsOrNot(filter: Filter, t: seq<Instr>, info: BlockInfo)
    ensures HasSync(Rewrite(filter, t, info)) || Rewrite(filter, t, info) == t
  {
    hide Conflicts, First, Flow;
    if t != [] {
      var x, rest := t[0], t[1..];
      var e := Emit(filter, x, rest, info);
      RewriteSyncsOrNot(filter, rest, Flow(e, info));
      AppendSyncs(e, Rewrite(filter, rest, Flow(e, info)));
      PairSyncs(x);
      assert t == [x] + rest;
    }
  }

  lemma PairSyncs(x: Instr)
    ensures HasSync([BARRIER, x]) && HasSync([x, BARRIER])
  {
    assert [x, BARRIER][1..] == [BARRIER];
  }

  // Whether the first visit ends with a block that synchronizes.
  lemma FirstVisit(filter: Filter, t: seq<Instr>, info: BlockInfo)
    ensures HasSync(Rewrite(filter, t, info)) <==> CanSync(t) || !Clean(filter, t, info)
    ensures !HasSync(Rewrite(filter, t, info)) ==> Rewrite(filter, t, info) == t
  {
    hide Conflicts, Flow, Rewrite, Clean;
    RewriteSyncsOrNot(filter, t, info);
    UnchangedIff(filter, t, info);
    if CanSync(t) {
      RewriteSyncs(filter, t, info);
    } else {
      FlowAccesses(t, info);
      if HasSync(t) {
        SyncCanSync(t);
      }
    }
  }

  lemma BarrierPasses(info: BlockInfo)
    ensures Pass(BARRIER, info) == EMPTY
  {
  }

  /** What a block without a sync leaves pending when it is visited with all its accesses pending:
      everything, or what it accesses from the first conflict on. */
  lemma {:induction false} SecondVisit(filter: Filter, t: seq<Instr>, a: BlockInfo, all: BlockInfo)
    requires !CanSync(t) && Clean(filter, t, a) && Accessed(t).Within(all)
    ensures var i := FirstConflict(filter, t, all);
            Flow(Rewrite(filter, t, all), all) == if i == |t| then all else Accessed(t[i..])
  {
    hide Conflicts, First, Last;
    if t != [] {
      var x, rest := t[0], t[1..];
      var e := Emit(filter, x, rest, all);
      assert t == [x] + rest;
      RewriteStep(filter, x, rest, all);
      CleanOne(filter, x, all);
      CleanPair(filter, BARRIER, x, all);
      if Conflicts(filter, all, First(x)) {
        FirstOfBarrier(x);
        BarrierPasses(all);
        EmptyJoins(Last(x));
        CleanMonotone(filter, rest, Last(x), Pass(x, a));
        FlowAccesses(rest, Last(x));
        UnchangedIff(filter, rest, Last(x));
        assert t[0..] == t;
      } else {
        assert Pass(x, all) == all;
        SecondVisit(filter, rest, Pass(x, a), all);
        var i := FirstConflict(filter, rest, all);
        assert t[i + 1..] == rest[i..];
      }
    }
  }

  // ---------- the turns of resolve ----------

  // What is pending when the loop is entered.
  function Entering(filter: Filter, before: seq<Instr>): BlockInfo {
    Flow(Rewrite(filter, before, EMPTY), EMPTY)
  }

  function AfterEntry(filter: Filter, before: seq<Instr>, loop: seq<Instr>, after: seq<Instr>): State {
    var entry := Entering(filter, before);
    State([Rewrite(filter, before, EMPTY), loop, after], map[1 := entry], map[0 := entry], [1])
  }

  lemma EntryTurn(filter: Filter, before: seq<Instr>, loop: seq<Instr>, after: seq<Instr>)
    ensures Step(filter, LOOP, Start([before, loop, after], [0])) == AfterEntry(filter, before, loop, after)
  {
    hide Rewrite, Flow;
    var entry := Entering(filter, before);
    EmptyJoins(entry);
    assert JoinAll(map[], [1], entry) == map[1 := entry];
  }

  function AfterLoop(filter: Filter, before: seq<Instr>, loop: seq<Instr>, after: seq<Instr>): State {
    var entry := Entering(filter, before);
    var code := Rewrite(filter, loop, entry);
    var out := Flow(code, entry);
    State([Rewrite(filter, before, EMPTY), code, after], map[1 := entry.Join(out), 2 := out], map[0 := entry, 1 := out], [1, 2])
  }

  lemma LoopTurn(filter: Filter, before: seq<Instr>, loop: seq<Instr>, after: seq<Instr>)
    ensures Step(filter, LOOP, AfterEntry(filter, before, loop, after)) == AfterLoop(filter, before, loop, after)
  {
    hide Rewrite, Flow;
    var entry := Entering(filter, before);
    var out := Flow(Rewrite(filter, loop, entry), entry);
    EmptyJoins(out);
    var known: InfoMap := map[1 := entry];
    assert JoinAll(known, [1, 2], out) == map[1 := entry.Join(out), 2 := out];
  }

  // Block 1 has all of `all` pending before it and reported after it, but a visit leaves less.
  ghost predicate Busy(filter: Filter, all: BlockInfo, st: State) {
    && |st.body| == 3 && 1 in st.worklist && (forall b :: b in st.worklist ==> b == 1 || b == 2)
    && Get(st.input, 1) == all && 1 in st.output && st.output[1] == all
    && var info := Flow(Rewrite(filter, st.body[1], all), all);
       info != all && info.Within(all)
  }

  lemma BusyStays(filter: Filter, all: BlockInfo, st: State)
    requires Busy(filter, all, st)
    ensures st.worklist != [] && st.worklist[0] < |st.body| == |LOOP|
    ensures Busy(filter, all, Step(filter, LOOP, st))
  {
    hide Flow, Rewrite;
    var b := st.worklist[0];
    assert b in st.worklist && forall x :: x in st.worklist <==> x == b || x in st.worklist[1..];
    var n := Step(filter, LOOP, st);
    var info := Flow(Rewrite(filter, st.body[1], all), all);
    RewriteAgain(filter, st.body[1], all);
    if b == 1 {
      assert all.Join(info) == all && all.Join(all) == all;
      assert n.body[1] == Rewrite(filter, st.body[1], all);
    }
  }

  // A block that was just visited with the same information stays as it is.
  lemma RewriteAgain(filter: Filter, t: seq<Instr>, info: BlockInfo)
    ensures Rewrite(filter, Rewrite(filter, t, info), info) == Rewrite(filter, t, info)
  {
    hide Rewrite, Clean, WaitsFenced;
    RewriteIsClean(filter, t, info);
    RewriteFenced(filter, t, info);
    UnchangedIff(filter, Rewrite(filter, t, info), info);
  }

  lemma {:induction false} BusyForEver(filter: Filter, all: BlockInfo, st: State, k: nat)
    requires InRange(|LOOP|, st) && IsGraph(LOOP) && Busy(filter, all, st)
    ensures Busy(filter, all, Iterate(filter, LOOP, st, k))
    ensures Iterate(filter, LOOP, st, k).worklist != []
  {
    hide Step, Busy;
    BusyStays(filter, all, Iterate(filter, LOOP, st, 0));
    if k > 0 {
      BusyForEver(filter, all, st, k - 1);
      BusyStays(filter, all, Iterate(filter, LOOP, st, k - 1));
      BusyStays(filter, all, Iterate(filter, LOOP, st, k));
    }
  }

  // The second visit leaves what the first one did: two more turns, and the worklist is empty.
  lemma LoopEnds(filter: Filter, st: State)
    requires |st.body| == 3 && st.worklist == [1, 2] && 1 in st.output && 2 !in st.output
    requires Flow(Rewrite(filter, st.body[1], Get(st.input, 1)), Get(st.input, 1)) == st.output[1]
    ensures var n := Step(filter, LOOP, st); n.worklist == [2] && |n.body| == 3 && Step(filter, LOOP, n).worklist == []
  {
    hide Flow, Rewrite;
    assert [1, 2][1..] == [2] && |[2][1..]| == 0;
  }

  // ---------- when the analysis of a loop ends ----------

  /** The loop synchronizes, or its first visit makes it, or no operation conflicts with what one
      round of the loop leaves pending, or everything pending is accessed again from the first
      operation that conflicts on. */
  ghost predicate LoopSettles(filter: Filter, before: seq<Instr>, loop: seq<Instr>) {
    var entry := Entering(filter, before);
    var all := entry.Join(Accessed(loop));
    var i := FirstConflict(filter, loop, all);
    CanSync(loop) || !Clean(filter, loop, entry) || i == |loop| || Accessed(loop[i..]) == all
  }

  // Whether the second visit of the loop leaves what the first one did.
  lemma SecondVisitSettles(filter: Filter, before: seq<Instr>, loop: seq<Instr>, after: seq<Instr>)
    ensures var st := AfterLoop(filter, before, loop, after);
            && LoopSettles(filter, before, loop) <==>
                 Flow(Rewrite(filter, st.body[1], st.input[1]), st.input[1]) == st.output[1]
    ensures !LoopSettles(filter, before, loop) ==>
              Busy(filter, Entering(filter, before).Join(Accessed(loop)), AfterLoop(filter, before, loop, after))
  {
    hide Flow, Rewrite, Conflicts, Clean, FirstConflict, Accessed, WaitsFenced, Entering;
    var entry, all := Entering(filter, before), Entering(filter, before).Join(Accessed(loop));
    var code := Rewrite(filter, loop, entry);
    var out := Flow(code, entry);
    FirstVisit(filter, loop, entry);
    if HasSync(code) {
      RewriteIsClean(filter, loop, entry);
      RewriteFenced(filter, loop, entry);
      SyncFixes(filter, code, entry, entry.Join(out));
    } else {
      FlowAccesses(loop, entry);
      assert entry.Join(all) == all;
      SecondVisit(filter, loop, entry, all);
      var i := FirstConflict(filter, loop, all);
      AccessedWithin(loop, i);
      assert [1, 2][0] == 1;
    }
  }

  lemma {:induction false} AccessedWithin(t: seq<Instr>, i: nat)
    requires i <= |t|
    ensures Accessed(t[i..]).Within(Accessed(t))
  {
    hide Last;
    if i > 0 {
      assert t[i..] == t[1..][i - 1..];
      AccessedWithin(t[1..], i - 1);
    } else {
      assert t[i..] == t;
    }
  }

  /** The analysis of a loop ends exactly if the loop settles, whatever comes before and after. */
  lemma LoopDrainsIff(filter: Filter, before: seq<Instr>, loop: seq<Instr>, after: seq<Instr>)
    ensures Ready(LOOP, [0], [before, loop, after])
    ensures Drains(filter, LOOP, [0], [before, loop, after]) <==> LoopSettles(filter, before, loop)
  {
    hide Step, LoopSettles, Busy;
    var st := Start([before, loop, after], [0]);
    var looped := AfterLoop(filter, before, loop, after);
    StartInvariant(filter, LOOP, [0], [before, loop, after]);
    EntryTurn(filter, before, loop, after);
    LoopTurn(filter, before, loop, after);
    SecondVisitSettles(filter, before, loop, after);
    assert Iterate(filter, LOOP, st, 1) == AfterEntry(filter, before, loop, after);
    assert Iterate(filter, LOOP, st, 2) == looped;
    if LoopSettles(filter, before, loop) {
      LoopEnds(filter, looped);
      assert Iterate(filter, LOOP, st, 3) == Step(filter, LOOP, looped);
      assert Iterate(filter, LOOP, st, 4).worklist == [];
    } else {
      forall k: nat ensures Iterate(filter, LOOP, st, k).worklist != [] {
        if k >= 2 {
          IterateAdds(filter, LOOP, st, 2, k - 2);
          BusyForEver(filter, Entering(filter, before).Join(Accessed(loop)), looped, k - 2);
        }
      }
    }
  }

  lemma {:induction false} IterateAdds(filter: Filter, succs: Cfg, st: State, j: nat, k: nat)
    requires IsGraph(succs) && InRange(|succs|, st)
    ensures Iterate(filter, succs, st, j + k) == Iterate(filter, succs, Iterate(filter, succs, st, j), k)
  {
    hide Step;
    if k > 0 {
      IterateAdds(filter, succs, st, j, k - 1);
    }
  }

  // ---------- operations are told apart ----------

  ghost function Ids(t: seq<Instr>): set<OpId> {
    set i | 0 <= i < |t| :: t[i].id
  }

  ghost predicate NamedBy(info: BlockInfo, ids: set<OpId>) {
    forall p :: p in info.loads || p in info.stores ==> p.1 in ids
  }

  lemma LastNamed(x: Instr)
    ensures NamedBy(Last(x), {x.id})
  {
  }

  lemma {:induction false} AccessedNames(t: seq<Instr>)
    ensures NamedBy(Accessed(t), Ids(t))
  {
    hide Last;
    if t != [] {
      AccessedNames(t[1..]);
      LastNamed(t[0]);
      forall id | id in Ids(t[1..]) ensures id in Ids(t) {
        var i :| 0 <= i < |t| - 1 && t[1..][i].id == id;
        assert t[i + 1].id == id;
      }
      assert t[0].id in Ids(t);
    }
  }

  // Nothing is pending after a visit but what was before, and accesses of the block.
  lemma {:induction false} RewriteNames(filter: Filter, t: seq<Instr>, info: BlockInfo, ids: set<OpId>)
    requires NamedBy(info, ids) && forall i :: 0 <= i < |t| ==> t[i].id in ids
    ensures NamedBy(Flow(Rewrite(filter, t, info), info), ids)
  {
    hide Conflicts, First, Last;
    if t != [] {
      var x, rest := t[0], t[1..];
      var e := Emit(filter, x, rest, info);
      assert t == [x] + rest;
      RewriteStep(filter, x, rest, info);
      CleanOne(filter, x, info);
      CleanPair(filter, BARRIER, x, info);
      CleanPair(filter, x, BARRIER, info);
      LastNamed(x);
      BarrierPasses(info);
      BarrierPasses(Pass(x, info));
      RewriteNames(filter, rest, Flow(e, info), ids);
    }
  }

  lemma {:induction false} AccessedSplit(t: seq<Instr>, i: nat)
    requires i <= |t|
    ensures Accessed(t) == Accessed(t[..i]).Join(Accessed(t[i..]))
  {
    hide Last;
    if i == 0 {
      assert t[0..] == t;
    } else {
      AccessedSplit(t[1..], i - 1);
      assert t[1..][..i - 1] == t[..i][1..] && t[1..][i - 1..] == t[i..];
    }
  }

  lemma NothingNamed(info: BlockInfo, a: set<OpId>, b: set<OpId>)
    requires NamedBy(info, a) && NamedBy(info, b) && a !! b
    ensures info == EMPTY
  {
    assert info.loads == {} && info.stores == {};
  }

  lemma WithinNamed(info: BlockInfo, larger: BlockInfo, ids: set<OpId>)
    requires info.Within(larger) && NamedBy(larger, ids)
    ensures NamedBy(info, ids)
  {
  }

  /** As in the source, where an access is known by its operation: the analysis of a loop without
      a sync that gets none at the first visit ends exactly if no operation conflicts with the
      accesses of the loop, or the first that does is the first one to access shared memory and
      nothing is pending when the loop is entered. */
  lemma LoopSettlesIff(filter: Filter, before: seq<Instr>, loop: seq<Instr>)
    requires forall i, j :: 0 <= i < j < |loop| ==> loop[i].id != loop[j].id
    requires Ids(before) !! Ids(loop)
    requires !CanSync(loop) && Clean(filter, loop, Entering(filter, before))
    ensures var entry := Entering(filter, before);
            var i := FirstConflict(filter, loop, entry.Join(Accessed(loop)));
            LoopSettles(filter, before, loop) <==> i == |loop| || (entry == EMPTY && Accessed(loop[..i]) == EMPTY)
  {
    hide Conflicts, Clean, Flow, Rewrite, Accessed, FirstConflict, CanSync;
    var entry := Entering(filter, before);
    var all := entry.Join(Accessed(loop));
    var i := FirstConflict(filter, loop, all);
    var head, tail := loop[..i], loop[i..];
    AccessedSplit(loop, i);
    if Accessed(tail) == all {
      assert Ids(head) !! Ids(tail) && Ids(tail) <= Ids(loop);
      AccessedNames(head);
      AccessedNames(tail);
      RewriteNames(filter, before, EMPTY, Ids(before));
      WithinNamed(entry, all, Ids(tail));
      WithinNamed(Accessed(head), all, Ids(tail));
      NothingNamed(entry, Ids(before), Ids(tail));
      NothingNamed(Accessed(head), Ids(head), Ids(tail));
    }
    if entry == EMPTY && Accessed(head) == EMPTY {
      EmptyJoins(Accessed(tail));
      EmptyJoins(Accessed(loop));
    }
  }

  // ---------- a loop on which the analysis does not end ----------

  // Reads one buffer, then writes another.
  function ReadThenWrite(c: Interval, a: Interval): seq<Instr> {
    [Instr(1, Access({c}, {}, None)), Instr(2, Access({}, {a}, None))]
  }

  ghost predicate HasPredecessor(succs: Cfg, b: nat) {
    exists p :: 0 <= p < |succs| && b in succs[p]
  }

  lemma OneAccess(filter: Filter, w: Instr, all: BlockInfo)
    requires w.op.Access? && w.op.scratch.None? && Conflicts(filter, all, First(w))
    ensures Accessed([w]) == Last(w) && !CanSync([w]) && FirstConflict(filter, [w], all) == 0
  {
    assert [w][1..] == [];
    assert Accessed([]) == EMPTY && !CanSync([]);
  }

  lemma ReadThenWriteConflicts(filter: Filter, c: Interval, a: Interval)
    requires a.NonEmpty() && !c.Intersects(a) && !filter(2, 2)
    ensures var loop, all := ReadThenWrite(c, a), BlockInfo({(c, 1)}, {(a, 2)});
            && |loop| == 2 && Accessed(loop) == all && Accessed(loop[1..]) == BlockInfo({}, {(a, 2)})
            && !CanSync(loop) && Clean(filter, loop, EMPTY) && FirstConflict(filter, loop, all) == 1
  {
    var loop, all := ReadThenWrite(c, a), BlockInfo({(c, 1)}, {(a, 2)});
    var r, w := loop[0], loop[1];
    assert First(r) == Last(r) == BlockInfo({(c, 1)}, {}) && First(w) == Last(w) == BlockInfo({}, {(a, 2)});
    assert loop == [r, w] && loop[1..] == [w] && |[w][1..]| == 0;
    assert Clash(filter, (a, 2), (a, 2));
    assert Conflicts(filter, all, First(w)) && !Conflicts(filter, all, First(r)) && !Conflicts(filter, Last(r), First(w));
    hide Conflicts, First, Last;
    EmptyJoins(Last(r));
    NothingConflicts(filter, First(r));
    CleanPair(filter, r, w, EMPTY);
    OneAccess(filter, w, all);
    assert all == Last(r).Join(Accessed([w]));
  }

  /** A loop that reads one buffer and then writes another keeps the worklist busy for ever: from
      the second visit on a barrier hides the read from what the block leaves pending. */
  lemma ReadThenWriteLoopNeverDrains(filter: Filter, c: Interval, a: Interval, after: seq<Instr>)
    requires a.NonEmpty() && !c.Intersects(a) && !filter(2, 2)
    ensures Ready(LOOP, [0], [[], ReadThenWrite(c, a), after]) && !HasPredecessor(LOOP, 0)
    ensures !Drains(filter, LOOP, [0], [[], ReadThenWrite(c, a), after])
  {
    LoopDrainsIff(filter, [], ReadThenWrite(c, a), after);
    ReadThenWriteConflicts(filter, c, a);
    hide Drains, Conflicts, FirstConflict, Accessed, Clean, CanSync, ReadThenWrite;
    assert Entering(filter, []) == EMPTY;
    EmptyJoins(BlockInfo({(c, 1)}, {(a, 2)}));
    assert (c, 1) in BlockInfo({(c, 1)}, {(a, 2)}).loads && (c, 1) !in BlockInfo({}, {(a, 2)}).loads;
    assert !LoopSettles(filter, [], ReadThenWrite(c, a));
  }
}
