/** A loop as `scf.for` and `scf.while` are lowered, with a header block that branches to the body
or leaves: MembarAnalysis::resolve ends on it whatever the blocks do (lib/Analysis/Membar.cpp:44-71). */
module MembarHeaded {
  import opened Acyclic
  import opened MembarSpec
  import opened Membar
  import opened MembarResolve
  import opened MembarBounds
  import opened MembarDrains
  import opened MembarLoop

  // Block 0 is the entry, block 1 the header, block 2 the body, block 3 returns.
  const HEADED: Cfg := [[1], [2, 3], [1], []]

  // What a visit that starts from `info` leaves pending.
  function Visited(filter: Filter, t: seq<Instr>, info: BlockInfo): BlockInfo {
    Flow(Rewrite(filter, t, info), info)
  }

  // ---------- single visits ----------

  // If the second visit of a block leaves something else, the first one neither met nor inserted a sync.
  lemma NewsMeansOpen(filter: Filter, t: seq<Instr>, a: BlockInfo, b: BlockInfo)
    requires Visited(filter, Rewrite(filter, t, a), b) != Visited(filter, t, a)
    ensures Rewrite(filter, t, a) == t && !CanSync(t) && Clean(filter, t, a)
    ensures Visited(filter, t, a) == a.Join(Accessed(t))
  {
    hide Flow, Rewrite, Clean, Accessed, WaitsFenced;
    FirstVisit(filter, t, a);
    if HasSync(Rewrite(filter, t, a)) {
      RewriteIsClean(filter, t, a);
      RewriteFenced(filter, t, a);
      SyncFixes(filter, Rewrite(filter, t, a), a, b);
    } else {
      FlowAccesses(t, a);
    }
  }

  lemma VisitedAgain(filter: Filter, t: seq<Instr>, a: BlockInfo)
    ensures Visited(filter, Rewrite(filter, t, a), a) == Visited(filter, t, a)
  {
    hide Flow, Rewrite;
    RewriteAgain(filter, t, a);
  }

  lemma VisitedWithin(filter: Filter, t: seq<Instr>, a: BlockInfo)
    requires Accessed(t).Within(a)
    ensures Visited(filter, t, a).Within(a)
  {
    hide Flow, Rewrite, Accessed;
    RewriteAccesses(filter, t, a);
    FlowWithin(Rewrite(filter, t, a), a, a);
  }

  // The second visit passes everything on, or adds nothing to what the block accesses.
  lemma SecondVisitLeaves(filter: Filter, t: seq<Instr>, a: BlockInfo, all: BlockInfo)
    requires !CanSync(t) && Clean(filter, t, a) && Accessed(t).Within(all)
    ensures Visited(filter, t, all) == all || Visited(filter, t, all).Within(Accessed(t))
  {
    hide Flow, Rewrite, Accessed, Clean, FirstConflict, CanSync;
    SecondVisit(filter, t, a, all);
    AccessedWithin(t, FirstConflict(filter, t, all));
  }

  // ---------- turns ----------

  ghost predicate Shaped(st: State) {
    IsGraph(HEADED) && InRange(|HEADED|, st)
  }

  ghost predicate Ends(filter: Filter, st: State)
    requires Shaped(st)
  {
    exists k: nat :: Iterate(filter, HEADED, st, k).worklist == []
  }

  lemma EndsNow(filter: Filter, st: State)
    requires Shaped(st) && st.worklist == []
    ensures Ends(filter, st)
  {
    assert Iterate(filter, HEADED, st, 0).worklist == [];
  }

  lemma EndsBefore(filter: Filter, st: State)
    requires Shaped(st) && st.worklist != []
    requires Shaped(Step(filter, HEADED, st)) && Ends(filter, Step(filter, HEADED, st))
    ensures Ends(filter, st)
  {
    hide Step;
    var k: nat :| Iterate(filter, HEADED, Step(filter, HEADED, st), k).worklist == [];
    StepAtFront(filter, HEADED, st, k);
    assert Iterate(filter, HEADED, st, k + 1).worklist == [];
  }

  lemma EntryTurn(filter: Filter, st: State)
    requires Shaped(st) && st.worklist == [0] && st.input == map[] && st.output == map[]
    ensures var n := Step(filter, HEADED, st);
            && Shaped(n) && n.worklist == [1]
            && n.body[1] == st.body[1] && n.body[2] == st.body[2]
            && Get(n.input, 2) == EMPTY && n.output.Keys == {0}
  {
    hide Flow, Rewrite;
    StepInRange(filter, HEADED, st);
  }

  lemma HeaderTurn(filter: Filter, st: State)
    requires Shaped(st) && st.worklist == [1]
    ensures var n, out := Step(filter, HEADED, st), Visited(filter, st.body[1], Get(st.input, 1));
            && Shaped(n)
            && if 1 in st.output && st.output[1] == out then n.worklist == []
               else
                 && n.worklist == [2, 3]
                 && n.body == st.body[1 := Rewrite(filter, st.body[1], Get(st.input, 1))]
                 && n.output == st.output[1 := Get(st.output, 1).Join(out)]
                 && Get(n.input, 1) == Get(st.input, 1)
                 && Get(n.input, 2) == Get(st.input, 2).Join(n.output[1])
  {
    hide Flow, Rewrite;
    StepInRange(filter, HEADED, st);
  }

  lemma BodyTurn(filter: Filter, st: State)
    requires Shaped(st) && st.worklist == [2, 3]
    ensures var n, out := Step(filter, HEADED, st), Visited(filter, st.body[2], Get(st.input, 2));
            && Shaped(n)
            && if 2 in st.output && st.output[2] == out then n.worklist == [3]
               else
                 && n.worklist == [3, 1]
                 && n.body == st.body[2 := Rewrite(filter, st.body[2], Get(st.input, 2))]
                 && n.output == st.output[2 := Get(st.output, 2).Join(out)]
                 && Get(n.input, 1) == Get(st.input, 1).Join(n.output[2])
                 && Get(n.input, 2) == Get(st.input, 2)
  {
    hide Flow, Rewrite;
    StepInRange(filter, HEADED, st);
    assert [2, 3][1..] == [3];
  }

  lemma ExitTurn(filter: Filter, st: State)
    requires Shaped(st) && (st.worklist == [3] || st.worklist == [3, 1])
    ensures var n := Step(filter, HEADED, st);
            && Shaped(n) && n.worklist == st.worklist[1..]
            && n.input == st.input && n.body[1] == st.body[1] && n.body[2] == st.body[2]
            && (1 in st.output ==> 1 in n.output && n.output[1] == st.output[1])
            && (2 in st.output ==> 2 in n.output && n.output[2] == st.output[2])
  {
    hide Flow, Rewrite;
    StepInRange(filter, HEADED, st);
  }

  // ---------- the second round ----------

  // Header and body have been visited once, the header with `entry` pending.
  ghost predicate RoundDone(filter: Filter, header: seq<Instr>, body: seq<Instr>, entry: BlockInfo, st: State) {
    var o1 := Visited(filter, header, entry);
    var o2 := Visited(filter, body, o1);
    && Shaped(st) && st.worklist == [1]
    && st.body[1] == Rewrite(filter, header, entry) && st.body[2] == Rewrite(filter, body, o1)
    && Get(st.input, 1) == entry.Join(o2) && Get(st.input, 2) == o1
    && 1 in st.output && st.output[1] == o1 && 2 in st.output && st.output[2] == o2
  }

  lemma ExitEnds(filter: Filter, st: State)
    requires Shaped(st) && st.worklist == [3]
    ensures Ends(filter, st)
  {
    hide Ends, Step;
    ExitTurn(filter, st);
    EndsNow(filter, Step(filter, HEADED, st));
    EndsBefore(filter, st);
  }

  // Everything the loop accesses is pending before the header and reported after it.
  lemma HeaderEnds(filter: Filter, header: seq<Instr>, all: BlockInfo, st: State)
    requires Shaped(st) && st.worklist == [3, 1] && 1 in st.output && st.output[1] == all
    requires st.body[1] == Rewrite(filter, header, all) && Get(st.input, 1) == all && Visited(filter, header, all) == all
    ensures Ends(filter, st)
  {
    hide Ends, Step, Visited, Rewrite;
    ExitTurn(filter, st);
    var n := Step(filter, HEADED, st);
    assert [3, 1][1..] == [1];
    VisitedAgain(filter, header, all);
    HeaderTurn(filter, n);
    EndsNow(filter, Step(filter, HEADED, n));
    EndsBefore(filter, n);
    EndsBefore(filter, st);
  }

  lemma SecondRound(filter: Filter, header: seq<Instr>, body: seq<Instr>, entry: BlockInfo, st: State)
    requires RoundDone(filter, header, body, entry, st)
    ensures Ends(filter, st)
  {
    hide Ends, Step, Visited, Rewrite, Accessed, CanSync, Clean;
    var o1 := Visited(filter, header, entry);
    var o2 := Visited(filter, body, o1);
    var n := Step(filter, HEADED, st);
    HeaderTurn(filter, st);
    if n.worklist == [] {
      EndsNow(filter, n);
    } else {
      NewsMeansOpen(filter, header, entry, entry.Join(o2));
      var m := Step(filter, HEADED, n);
      BodyTurn(filter, n);
      if m.worklist == [3] {
        ExitEnds(filter, m);
      } else {
        BodyNews(filter, header, body, entry, o1.Join(o1.Join(Visited(filter, header, entry.Join(o2)))));
        HeaderEnds(filter, header, o2, m);
      }
      EndsBefore(filter, n);
    }
    EndsBefore(filter, st);
  }

  // If the body, too, leaves something else at its second visit, then everything has reached it
  // through the header.
  lemma BodyNews(filter: Filter, header: seq<Instr>, body: seq<Instr>, entry: BlockInfo, told: BlockInfo)
    requires !CanSync(header) && Clean(filter, header, entry)
    requires Visited(filter, header, entry) == entry.Join(Accessed(header))
    requires var o1 := Visited(filter, header, entry);
             var o2 := Visited(filter, body, o1);
             && told == o1.Join(o1.Join(Visited(filter, header, entry.Join(o2))))
             && Visited(filter, Rewrite(filter, body, o1), told) != o2
    ensures var o1 := Visited(filter, header, entry);
            var o2 := Visited(filter, body, o1);
            && entry.Join(o2) == o2 && o1.Join(o2) == o2
            && Visited(filter, header, o2) == o2 && told == o2
            && Rewrite(filter, body, o1) == body
            && o2.Join(Visited(filter, body, o2)) == o2
  {
    hide Visited, Rewrite, Accessed, CanSync, Clean;
    var o1 := Visited(filter, header, entry);
    var o2 := Visited(filter, body, o1);
    NewsMeansOpen(filter, body, o1, told);
    assert entry.Join(o2) == o2 && o1.Join(o2) == o2;
    SecondVisitLeaves(filter, header, entry, o2);
    VisitedAgain(filter, body, o1);
    assert Visited(filter, header, o2).Within(Accessed(header)) ==> told == o1;
    VisitedWithin(filter, body, o2);
  }

  /** Whatever header and body access, and whatever comes before and after: the worklist drains. */
  lemma HeadedLoopDrains(filter: Filter, before: seq<Instr>, header: seq<Instr>, body: seq<Instr>, after: seq<Instr>)
    ensures Ready(HEADED, [0], [before, header, body, after])
    ensures Drains(filter, HEADED, [0], [before, header, body, after])
  {
    var code := [before, header, body, after];
    var st := Start(code, [0]);
    StartInvariant(filter, HEADED, [0], code);
    FirstRound(filter, st);
  }

  lemma FirstRound(filter: Filter, st: State)
    requires Shaped(st) && st.worklist == [0] && st.input == map[] && st.output == map[]
    ensures Ends(filter, st)
  {
    hide Ends, Step, Visited, Rewrite;
    var n := Step(filter, HEADED, st);
    EntryTurn(filter, st);
    var m := Step(filter, HEADED, n);
    HeaderTurn(filter, n);
    var p := Step(filter, HEADED, m);
    BodyTurn(filter, m);
    var q := Step(filter, HEADED, p);
    ExitTurn(filter, p);
    assert [3, 1][1..] == [1];
    var entry := Get(n.input, 1);
    var o1 := Visited(filter, n.body[1], entry);
    EmptyJoins(o1);
    EmptyJoins(Visited(filter, n.body[2], o1));
    assert m.output[1] == o1 && Get(m.input, 2) == o1;
    var o2 := Visited(filter, n.body[2], o1);
    assert q.output[1] == o1 && q.output[2] == o2;
    SecondRound(filter, st.body[1], st.body[2], entry, q);
    EndsBefore(filter, p);
    EndsBefore(filter, m);
    EndsBefore(filter, n);
    EndsBefore(filter, st);
  }
}
