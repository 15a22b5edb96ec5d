/** When the worklist of MembarAnalysis::resolve drains (lib/Analysis/Membar.cpp:44-71).  A block
that synchronizes hands its successors the same information at every visit; a block that needs no
barrier whatever is pending hands on all it is told, which only grows.  It is enough that every
cycle of the control flow graph has a block of one of these kinds. */
module MembarDrains {
  import opened Acyclic
  import opened Wrappers
  import opened MembarSpec
  import opened Membar
  import opened MembarResolve
  import opened MembarBounds

  // ---------- blocks that synchronize ----------

  ghost predicate HasSync(t: seq<Instr>) {
    t != [] && (Syncs(t[0]) || HasSync(t[1..]))
  }

  /** The block has a barrier, an operation with a scratch buffer or an async wait. */
  predicate CanSync(t: seq<Instr>) {
    t != [] && (Syncs(t[0]) || t[0].op.AsyncWait? || CanSync(t[1..]))
  }

  lemma {:induction false} AppendSyncs(a: seq<Instr>, b: seq<Instr>)
    ensures HasSync(a) || HasSync(b) ==> HasSync(a + b)
  {
    if a == [] {
      assert a + b == b;
    } else {
      assert (a + b)[1..] == a[1..] + b;
      AppendSyncs(a[1..], b);
    }
  }

  lemma {:induction false} SyncCanSync(t: seq<Instr>)
    requires HasSync(t)
    ensures CanSync(t)
  {
    if !Syncs(t[0]) {
      SyncCanSync(t[1..]);
    }
  }

  // A visit leaves every async wait with a barrier behind it.
  lemma {:induction false} RewriteFenced(filter: Filter, t: seq<Instr>, info: BlockInfo)
    ensures WaitsFenced(Rewrite(filter, t, info))
  {
    if t != [] {
      hide Conflicts, First, Flow, WaitsFenced;
      var x, rest := t[0], t[1..];
      var e := Emit(filter, x, rest, info);
      var r := Rewrite(filter, rest, Flow(e, info));
      RewriteFenced(filter, rest, Flow(e, info));
      if Unfenced(x, rest) {
        FencedCons(BARRIER, r);
        FencedCons(x, [BARRIER] + r);
        assert e + r == [x] + ([BARRIER] + r);
      } else if |e| == 1 {
        if x.op.AsyncWait? {
          BarrierStays(filter, rest, Flow(e, info));
        }
        FencedCons(x, r);
      } else {
        FirstOfWait(x);
        NothingConflicts(filter, info);
        FencedCons(x, r);
        FencedCons(BARRIER, [x] + r);
        assert e + r == [BARRIER] + ([x] + r);
      }
    }
  }

  lemma FencedCons(x: Instr, t: seq<Instr>)
    requires WaitsFenced(t) && !Unfenced(x, t)
    ensures WaitsFenced([x] + t)
  {
    assert ([x] + t)[1..] == t;
  }

  lemma FirstOfWait(x: Instr)
    ensures x.op.AsyncWait? ==> First(x) == EMPTY
  {
  }

  lemma BarrierStays(filter: Filter, t: seq<Instr>, info: BlockInfo)
    requires t != [] && t[0].op.Barrier?
    ensures var r := Rewrite(filter, t, info); r != [] && r[0] == t[0]
  {
    hide Conflicts, First, Flow;
  }

  lemma {:induction false} RewriteSyncs(filter: Filter, t: seq<Instr>, info: BlockInfo)
    requires CanSync(t)
    ensures HasSync(Rewrite(filter, t, info))
  {
    hide Conflicts, First, Flow;
    var x, rest := t[0], t[1..];
    var e := Emit(filter, x, rest, info);
    var r := Rewrite(filter, rest, Flow(e, info));
    AppendSyncs(e, r);
    if Syncs(x) {
      assert Syncs(e[|e| - 1]);
    } else if x.op.AsyncWait? && Unfenced(x, rest) {
      assert Syncs(e[1]);
    } else {
      if x.op.AsyncWait? {
        assert Syncs(rest[0]);
      }
      RewriteSyncs(filter, rest, Flow(e, info));
    }
  }

  /** What a block that synchronizes leaves pending does not depend on what is pending before it,
      and further visits do not change it. */
  lemma {:induction false} SyncFixes(filter: Filter, t: seq<Instr>, a: BlockInfo, b: BlockInfo)
    requires Clean(filter, t, a) && WaitsFenced(t) && HasSync(t)
    ensures Flow(Rewrite(filter, t, b), b) == Flow(t, a)
  {
    hide Conflicts, First, Last;
    var x, rest := t[0], t[1..];
    var e := Emit(filter, x, rest, b);
    assert t == [x] + rest;
    RewriteStep(filter, x, rest, b);
    CleanOne(filter, x, b);
    CleanPair(filter, BARRIER, x, b);
    if Syncs(x) {
      assert Flow(e, b) == Pass(x, a);
      UnchangedIff(filter, rest, Pass(x, a));
    } else {
      SyncFixes(filter, rest, Pass(x, a), Flow(e, b));
    }
  }

  // ---------- blocks that do not synchronize ----------

  lemma {:induction false} FlowAccesses(t: seq<Instr>, a: BlockInfo)
    requires !CanSync(t)
    ensures Flow(t, a) == a.Join(Accessed(t)) && WaitsFenced(t)
  {
    hide Last;
    if t != [] {
      FlowAccesses(t[1..], Pass(t[0], a));
    }
  }

  // A visit of a block that conflicts with nothing in `all` leaves it alone and passes everything on.
  lemma PeacefulVisit(filter: Filter, t: seq<Instr>, info: BlockInfo, all: BlockInfo)
    requires !CanSync(t) && Clean(filter, t, all) && info.Within(all)
    ensures Rewrite(filter, t, info) == t && Flow(t, info) == info.Join(Accessed(t))
  {
    hide Flow, Clean, Rewrite, WaitsFenced;
    FlowAccesses(t, info);
    CleanMonotone(filter, t, info, all);
    UnchangedIff(filter, t, info);
  }

  // ---------- blocks that every cycle should have ----------

  ghost predicate Reached(succs: Cfg, entries: seq<nat>, b: nat) {
    exists path :: IsPath(succs, entries, path) && path[|path| - 1] == b
  }

  // The block has been visited: from now on a visit leaves `out` pending.
  ghost predicate Returns(filter: Filter, t: seq<Instr>, out: BlockInfo) {
    WaitsFenced(t) && HasSync(t) && exists a :: Clean(filter, t, a) && Flow(t, a) == out
  }

  lemma VisitReturns(filter: Filter, t: seq<Instr>, info: BlockInfo)
    requires CanSync(t)
    ensures Returns(filter, Rewrite(filter, t, info), Flow(Rewrite(filter, t, info), info))
  {
    hide Clean, Flow, Rewrite, WaitsFenced;
    RewriteIsClean(filter, t, info);
    RewriteFenced(filter, t, info);
    RewriteSyncs(filter, t, info);
  }

  lemma VisitAgain(filter: Filter, t: seq<Instr>, out: BlockInfo, info: BlockInfo)
    requires Returns(filter, t, out)
    ensures Returns(filter, Rewrite(filter, t, info), out) && Flow(Rewrite(filter, t, info), info) == out
  {
    hide Clean, Flow, Rewrite, WaitsFenced;
    var a :| Clean(filter, t, a) && Flow(t, a) == out;
    SyncFixes(filter, t, a, info);
    SyncCanSync(t);
    VisitReturns(filter, t, info);
  }

  /** The block synchronizes, or none of its operations conflicts with what the function accesses. */
  ghost predicate Steady(filter: Filter, body: seq<seq<Instr>>, b: nat) {
    b < |body| && (CanSync(body[b]) || Clean(filter, body[b], Everything(body)))
  }

  ghost function SteadyBlocks(filter: Filter, body: seq<seq<Instr>>): set<nat> {
    set b | 0 <= b < |body| && Steady(filter, body, b)
  }

  // What turns keep of a steady block: one that synchronizes returns its output at every visit,
  // another is unchanged and has passed on no more than it was told.
  ghost predicate Fixed(filter: Filter, code: seq<seq<Instr>>, st: State, b: nat) {
    && b < |st.body| == |code|
    && (b !in st.output ==> st.body[b] == code[b])
    && (b in st.output && CanSync(code[b]) ==> Returns(filter, st.body[b], st.output[b]))
    && (b in st.output && !CanSync(code[b]) ==>
          st.body[b] == code[b] && st.output[b].Within(Get(st.input, b).Join(Accessed(code[b]))))
  }

  ghost predicate AllFixed(filter: Filter, code: seq<seq<Instr>>, st: State) {
    forall b :: b in SteadyBlocks(filter, code) ==> Fixed(filter, code, st, b)
  }

  // A turn at a steady block keeps it as it was, and queues no successors without news.
  lemma TurnFixed(filter: Filter, succs: Cfg, code: seq<seq<Instr>>, st: State)
    requires InRange(|succs|, st) && st.worklist != [] && |code| == |succs| && Bounded(Everything(code), st)
    requires Steady(filter, code, st.worklist[0]) && Fixed(filter, code, st, st.worklist[0])
    ensures Fixed(filter, code, Step(filter, succs, st), st.worklist[0])
    ensures News(st, Step(filter, succs, st), st.worklist[0]) || Step(filter, succs, st).worklist == st.worklist[1..]
  {
    hide Steady, Fixed, News, Step, Bounded, Everything;
    if CanSync(code[st.worklist[0]]) {
      SyncTurn(filter, succs, code, st);
    } else {
      PeacefulTurn(filter, succs, code, st);
    }
  }

  lemma SyncTurn(filter: Filter, succs: Cfg, code: seq<seq<Instr>>, st: State)
    requires InRange(|succs|, st) && st.worklist != [] && |code| == |succs| && CanSync(code[st.worklist[0]])
    requires Fixed(filter, code, st, st.worklist[0])
    ensures Fixed(filter, code, Step(filter, succs, st), st.worklist[0])
    ensures News(st, Step(filter, succs, st), st.worklist[0]) || Step(filter, succs, st).worklist == st.worklist[1..]
  {
    hide Returns, Flow, Rewrite, CanSync, Clean, Accessed;
    var c := st.worklist[0];
    var start := Get(st.input, c);
    EmptyJoins(Flow(Rewrite(filter, code[c], start), start));
    if c in st.output {
      VisitAgain(filter, st.body[c], st.output[c], start);
    } else {
      VisitReturns(filter, code[c], start);
    }
  }

  lemma PeacefulTurn(filter: Filter, succs: Cfg, code: seq<seq<Instr>>, st: State)
    requires InRange(|succs|, st) && st.worklist != [] && |code| == |succs| && Bounded(Everything(code), st)
    requires !CanSync(code[st.worklist[0]])
    requires Steady(filter, code, st.worklist[0]) && Fixed(filter, code, st, st.worklist[0])
    ensures Fixed(filter, code, Step(filter, succs, st), st.worklist[0])
    ensures News(st, Step(filter, succs, st), st.worklist[0]) || Step(filter, succs, st).worklist == st.worklist[1..]
  {
    hide Returns, Flow, Rewrite, CanSync, Clean, Accessed, Everything;
    var c := st.worklist[0];
    var start := Get(st.input, c);
    assert st.body[c] == code[c];
    assert start.Within(Everything(code));
    PeacefulVisit(filter, code[c], start, Everything(code));
    hide Bounded, Steady;
    EmptyJoins(Flow(code[c], start));
    StepGrows(filter, succs, st);
  }

  lemma StepFixed(filter: Filter, succs: Cfg, code: seq<seq<Instr>>, st: State)
    requires InRange(|succs|, st) && st.worklist != [] && |code| == |succs|
    requires AllFixed(filter, code, st) && Bounded(Everything(code), st)
    ensures AllFixed(filter, code, Step(filter, succs, st))
  {
    hide Returns, Flow, Rewrite, CanSync, Steady, Accessed, Everything, Bounded;
    var c, n := st.worklist[0], Step(filter, succs, st);
    StepGrows(filter, succs, st);
    forall b | b in SteadyBlocks(filter, code) ensures Fixed(filter, code, n, b) {
      assert Fixed(filter, code, st, b);
      if b == c {
        TurnFixed(filter, succs, code, st);
      }
    }
  }

  // ---------- the graph that is left without them ----------

  // Edges out of blocks that can be reached and are not steady.
  ghost function Cut(filter: Filter, succs: Cfg, entries: seq<nat>, body: seq<seq<Instr>>): (g: Cfg)
    ensures |g| == |succs|
    ensures forall b :: 0 <= b < |g| ==> g[b] == if Reached(succs, entries, b) && b !in SteadyBlocks(filter, body) then succs[b] else []
  {
    seq(|succs|, b requires 0 <= b < |succs| => if Reached(succs, entries, b) && b !in SteadyBlocks(filter, body) then succs[b] else [])
  }

  /** Every cycle that can be reached has a steady block. */
  ghost predicate CyclesSteady(filter: Filter, succs: Cfg, entries: seq<nat>, body: seq<seq<Instr>>)
    requires |body| == |succs|
  {
    forall c :: IsCycle(succs, c) && Reached(succs, entries, c[0]) ==> exists i :: 0 <= i < |c| && Steady(filter, body, c[i])
  }

  /** Every cycle that can be reached has a block that synchronizes. */
  ghost predicate CyclesSync(succs: Cfg, entries: seq<nat>, body: seq<seq<Instr>>)
    requires |body| == |succs|
  {
    forall c :: IsCycle(succs, c) && Reached(succs, entries, c[0]) ==> exists i :: 0 <= i < |c| && CanSync(body[c[i]])
  }

  lemma CutCycle(filter: Filter, succs: Cfg, entries: seq<nat>, body: seq<seq<Instr>>, c: seq<nat>)
    requires |body| == |succs| && IsCycle(Cut(filter, succs, entries, body), c)
    ensures IsCycle(succs, c) && Reached(succs, entries, c[0])
    ensures forall i :: 0 <= i < |c| ==> !Steady(filter, body, c[i])
  {
    hide Steady, Reached;
    var g := Cut(filter, succs, entries, body);
    forall i | 0 <= i < |c| - 1 ensures c[i + 1] in succs[c[i]] && c[i] !in SteadyBlocks(filter, body) && Reached(succs, entries, c[i]) {
      assert c[i + 1] in g[c[i + 1 - 1]];
    }
    assert forall i :: 0 < i < |c| ==> c[i] in succs[c[i - 1]];
    forall i | 0 <= i < |c| ensures c[i] !in SteadyBlocks(filter, body) {
      assert i == |c| - 1 ==> c[i] == c[0];
    }
  }

  lemma CutIsAcyclic(filter: Filter, succs: Cfg, entries: seq<nat>, body: seq<seq<Instr>>)
    requires Ready(succs, entries, body) && CyclesSteady(filter, succs, entries, body)
    ensures IsGraph(Cut(filter, succs, entries, body)) && IsAcyclic(Cut(filter, succs, entries, body))
  {
    hide Steady, Reached, IsCycle;
    var g := Cut(filter, succs, entries, body);
    forall b, s | 0 <= b < |g| && s in g[b] ensures s < |g| {
      assert s in succs[b];
    }
    forall c ensures !IsCycle(g, c) {
      if IsCycle(g, c) {
        CutCycle(filter, succs, entries, body, c);
      }
    }
    AcyclicIff(g);
  }

  // ---------- the worklist drains ----------

  ghost predicate AllReached(succs: Cfg, entries: seq<nat>, worklist: seq<nat>) {
    forall b :: b in worklist ==> Reached(succs, entries, b)
  }

  lemma EntriesReached(succs: Cfg, entries: seq<nat>)
    requires forall e :: e in entries ==> e < |succs|
    ensures AllReached(succs, entries, entries)
  {
    forall e | e in entries ensures Reached(succs, entries, e) {
      assert IsPath(succs, entries, [e]);
    }
  }

  lemma NextReached(succs: Cfg, entries: seq<nat>, b: nat, s: nat)
    requires IsGraph(succs) && Reached(succs, entries, b) && b < |succs| && s in succs[b]
    ensures Reached(succs, entries, s)
  {
    var path :| IsPath(succs, entries, path) && path[|path| - 1] == b;
    var longer := path + [s];
    assert IsPath(succs, entries, longer) && longer[|longer| - 1] == s;
  }

  lemma StepReached(filter: Filter, succs: Cfg, entries: seq<nat>, st: State)
    requires IsGraph(succs) && InRange(|succs|, st) && st.worklist != [] && AllReached(succs, entries, st.worklist)
    ensures AllReached(succs, entries, Step(filter, succs, st).worklist)
  {
    hide Flow, Rewrite, Reached;
    var b, n := st.worklist[0], Step(filter, succs, st);
    assert b in st.worklist && forall x :: x in st.worklist[1..] ==> x in st.worklist;
    forall x | x in n.worklist ensures Reached(succs, entries, x) {
      if x !in st.worklist[1..] {
        NextReached(succs, entries, b, x);
      }
    }
  }

  ghost function Rest(filter: Filter, code: seq<seq<Instr>>, st: State): set<Todo> {
    Missing(SteadyBlocks(filter, code), Everything(code), st.output)
  }

  // The paths in the cut graph that the worklist still has to follow.
  ghost function Load(g: Cfg, rank: seq<nat>, worklist: seq<nat>): nat
    requires Ranks(rank, g)
  {
    if forall i :: 0 <= i < |worklist| ==> worklist[i] < |g| then Sum(PathCounts(g, rank), worklist) else 0
  }

  // What a turn leaves of the worklist is lighter, if it only adds edges of the cut graph.
  lemma LoadDrops(g: Cfg, rank: seq<nat>, worklist: seq<nat>, next: seq<nat>)
    requires Ranks(rank, g) && worklist != [] && forall i :: 0 <= i < |worklist| ==> worklist[i] < |g|
    requires next == worklist[1..] || next == worklist[1..] + g[worklist[0]]
    ensures Load(g, rank, next) < Load(g, rank, worklist)
  {
    var w, b, rest := PathCounts(g, rank), worklist[0], worklist[1..];
    PathsFromIsSum(g, rank, g[b], rank[b]);
    assert forall i :: 0 <= i < |g[b]| ==> g[b][i] in g[b];
    SumAppend(w, rest, g[b]);
  }

  lemma LowerTurn(filter: Filter, succs: Cfg, entries: seq<nat>, code: seq<seq<Instr>>, rank: seq<nat>, st: State)
    requires Ready(succs, entries, code) && InRange(|succs|, st) && st.worklist != []
    requires Ranks(rank, Cut(filter, succs, entries, code))
    requires AllFixed(filter, code, st) && Bounded(Everything(code), st) && AllReached(succs, entries, st.worklist)
    ensures var n := Step(filter, succs, st);
            && Rest(filter, code, n) <= Rest(filter, code, st)
            && (Rest(filter, code, n) == Rest(filter, code, st) ==>
                  Load(Cut(filter, succs, entries, code), rank, n.worklist) < Load(Cut(filter, succs, entries, code), rank, st.worklist))
  {
    hide Flow, Rewrite, Reached, Fixed, Load, Missing, Everything, Accessed, News, Grows, Steady;
    var c, n, g := st.worklist[0], Step(filter, succs, st), Cut(filter, succs, entries, code);
    assert c in st.worklist;
    StepGrows(filter, succs, st);
    StepBounded(filter, succs, Everything(code), st);
    MissingShrinks(SteadyBlocks(filter, code), Everything(code), st, n);
    WorklistInRange(|succs|, st);
    if c in SteadyBlocks(filter, code) {
      TurnFixed(filter, succs, code, st);
    }
    if c in SteadyBlocks(filter, code) && News(st, n, c) {
      NewsIsReported(st, n, c);
      MissingDrops(SteadyBlocks(filter, code), Everything(code), st, n, c);
    } else {
      assert n.worklist == st.worklist[1..] || n.worklist == st.worklist[1..] + g[c];
      LoadDrops(g, rank, st.worklist, n.worklist);
    }
  }

  lemma NewsIsReported(st: State, n: State, c: nat)
    requires News(st, n, c)
    ensures c in n.output
  {
  }

  lemma {:induction false} DrainsFrom(filter: Filter, succs: Cfg, entries: seq<nat>, code: seq<seq<Instr>>, rank: seq<nat>, st: State)
    returns (k: nat)
    requires Ready(succs, entries, code) && InRange(|succs|, st) && Ranks(rank, Cut(filter, succs, entries, code))
    requires AllFixed(filter, code, st) && Bounded(Everything(code), st) && AllReached(succs, entries, st.worklist)
    ensures Iterate(filter, succs, st, k).worklist == []
    decreases Rest(filter, code, st), Load(Cut(filter, succs, entries, code), rank, st.worklist)
  {
    hide Step, AllFixed, AllReached, Load, Rest, Bounded, Everything;
    k := 0;
    if st.worklist != [] {
      var n := Step(filter, succs, st);
      StepInRange(filter, succs, st);
      StepFixed(filter, succs, code, st);
      StepBounded(filter, succs, Everything(code), st);
      StepReached(filter, succs, entries, st);
      LowerTurn(filter, succs, entries, code, rank, st);
      var rest := DrainsFrom(filter, succs, entries, code, rank, n);
      StepAtFront(filter, succs, st, rest);
      k := rest + 1;
    }
  }

  /** The worklist drains if every cycle that can be reached has a block that synchronizes, or one
      none of whose operations conflicts with what the function accesses. */
  lemma SteadyCyclesDrain(filter: Filter, succs: Cfg, entries: seq<nat>, body: seq<seq<Instr>>)
    requires Ready(succs, entries, body) && CyclesSteady(filter, succs, entries, body)
    ensures Drains(filter, succs, entries, body)
  {
    hide Iterate, CyclesSteady, Ranks, Bounded;
    var st, g := Start(body, entries), Cut(filter, succs, entries, body);
    StartInvariant(filter, succs, entries, body);
    StartBounded(body, entries);
    assert AllFixed(filter, body, st);
    CutIsAcyclic(filter, succs, entries, body);
    var rank :| Ranks(rank, g);
    EntriesReached(succs, entries);
    var k := DrainsFrom(filter, succs, entries, body, rank, st);
  }

  /** In particular it drains if every such cycle has a block with a barrier, an operation with a
      scratch buffer or an async wait ... */
  lemma SyncedCyclesDrain(filter: Filter, succs: Cfg, entries: seq<nat>, body: seq<seq<Instr>>)
    requires Ready(succs, entries, body) && CyclesSync(succs, entries, body)
    ensures Drains(filter, succs, entries, body)
  {
    hide CanSync, Reached, Drains;
    forall c | IsCycle(succs, c) && Reached(succs, entries, c[0])
      ensures exists i :: 0 <= i < |c| && Steady(filter, body, c[i])
    {
      var i :| 0 <= i < |c| && CanSync(body[c[i]]);
      assert Steady(filter, body, c[i]);
    }
    SteadyCyclesDrain(filter, succs, entries, body);
  }

  // No operation of the block accesses shared memory or synchronizes.
  ghost predicate Silent(t: seq<Instr>) {
    forall i :: 0 <= i < |t| ==> t[i].op == Access({}, {}, None)
  }

  /** Every cycle that can be reached has a block without accesses to shared memory. */
  ghost predicate CyclesSilent(succs: Cfg, entries: seq<nat>, body: seq<seq<Instr>>)
    requires |body| == |succs|
  {
    forall c :: IsCycle(succs, c) && Reached(succs, entries, c[0]) ==> exists i :: 0 <= i < |c| && Silent(body[c[i]])
  }

  lemma {:induction false} SilentIsClean(filter: Filter, t: seq<Instr>, info: BlockInfo)
    requires Silent(t)
    ensures Clean(filter, t, info)
  {
    hide Conflicts;
    if t != [] {
      assert First(t[0]) == EMPTY;
      NothingConflicts(filter, info);
      SilentIsClean(filter, t[1..], Pass(t[0], info));
    }
  }

  /** ... or a block without accesses to shared memory, such as the header of a lowered `scf.for`,
      which compares the induction variable and branches. */
  lemma SilentCyclesDrain(filter: Filter, succs: Cfg, entries: seq<nat>, body: seq<seq<Instr>>)
    requires Ready(succs, entries, body) && CyclesSilent(succs, entries, body)
    ensures Drains(filter, succs, entries, body)
  {
    hide CanSync, Clean, Reached, Drains, Silent;
    forall c | IsCycle(succs, c) && Reached(succs, entries, c[0])
      ensures exists i :: 0 <= i < |c| && Steady(filter, body, c[i])
    {
      var i :| 0 <= i < |c| && Silent(body[c[i]]);
      SilentIsClean(filter, body[c[i]], Everything(body));
      assert Steady(filter, body, c[i]);
    }
    SteadyCyclesDrain(filter, succs, entries, body);
  }

  /** ... or if there is no cycle. */
  lemma AcyclicDrains(filter: Filter, succs: Cfg, entries: seq<nat>, body: seq<seq<Instr>>)
    requires Ready(succs, entries, body) && IsAcyclic(succs)
    ensures Drains(filter, succs, entries, body)
  {
    hide IsCycle, Drains;
    AcyclicIff(succs);
    SyncedCyclesDrain(filter, succs, entries, body);
  }
}
