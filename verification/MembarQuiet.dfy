/** When MembarAnalysis::resolve leaves a function alone (lib/Analysis/Membar.cpp:21-80): exactly
when no path needs a barrier.  On such a function the worklist drains. */
module MembarQuiet {
  import opened Acyclic
  import opened Intervals
  import opened MembarSpec
  import opened Membar
  import opened MembarResolve
  import opened MembarBounds
  import opened MembarDrains

  /** No path needs a barrier, and a barrier follows every async wait that can be reached. */
  ghost predicate NeedsNothing(filter: Filter, succs: Cfg, entries: seq<nat>, body: seq<seq<Instr>>)
    requires |body| == |succs|
  {
    && AllSeparated(filter, succs, entries, body)
    && forall b :: 0 <= b < |body| && Reached(succs, entries, b) ==> WaitsFenced(body[b])
  }

  // ---------- a function that is left alone needs nothing ----------

  ghost predicate VisitedFenced(st: State) {
    forall b :: b in st.output && b < |st.body| ==> WaitsFenced(st.body[b])
  }

  lemma {:induction false} IterateFenced(filter: Filter, succs: Cfg, st: State, k: nat)
    requires IsGraph(succs) && InRange(|succs|, st) && VisitedFenced(st)
    ensures VisitedFenced(Iterate(filter, succs, st, k))
  {
    hide Step, VisitedFenced;
    if k > 0 {
      IterateFenced(filter, succs, st, k - 1);
      var p := Iterate(filter, succs, st, k - 1);
      if p.worklist != [] {
        StepFenced(filter, succs, p);
      }
    }
  }

  lemma StepFenced(filter: Filter, succs: Cfg, st: State)
    requires InRange(|succs|, st) && st.worklist != [] && VisitedFenced(st)
    ensures VisitedFenced(Step(filter, succs, st))
  {
    hide Flow, Rewrite, WaitsFenced;
    RewriteFenced(filter, st.body[st.worklist[0]], Get(st.input, st.worklist[0]));
  }

  lemma DrainedVisited(filter: Filter, succs: Cfg, entries: seq<nat>, st: State, b: nat)
    requires Invariant(filter, succs, entries, st) && st.worklist == [] && Reached(succs, entries, b)
    ensures b in st.output
  {
    var path :| IsPath(succs, entries, path) && path[|path| - 1] == b;
    PathsAreClean(filter, succs, entries, st, path);
  }

  lemma UnchangedNeedsNothing(filter: Filter, succs: Cfg, entries: seq<nat>, body: seq<seq<Instr>>, k: nat)
    requires Ready(succs, entries, body) && InRange(|succs|, Start(body, entries))
    requires Iterate(filter, succs, Start(body, entries), k).worklist == []
    requires Iterate(filter, succs, Start(body, entries), k).body == body
    ensures NeedsNothing(filter, succs, entries, body)
  {
    hide Iterate, Invariant, AllSeparated, WaitsFenced, Reached;
    var st := Iterate(filter, succs, Start(body, entries), k);
    IterateKeepsInvariant(filter, succs, entries, body, k);
    IterateFenced(filter, succs, Start(body, entries), k);
    DrainedIsSeparated(filter, succs, entries, st);
    forall b | 0 <= b < |body| && Reached(succs, entries, b) ensures WaitsFenced(body[b]) {
      DrainedVisited(filter, succs, entries, st, b);
    }
  }

  // ---------- pending accesses come from paths ----------

  lemma {:induction false} FlowSplit(t: seq<Instr>, a: BlockInfo)
    ensures Flow(t, a) == if HasSync(t) then Flow(t, EMPTY) else a.Join(Flow(t, EMPTY))
  {
    hide Last;
    if t != [] {
      FlowSplit(t[1..], Pass(t[0], a));
      FlowSplit(t[1..], Pass(t[0], EMPTY));
    }
  }

  // A path after which block b may be next.
  ghost predicate LeadsTo(succs: Cfg, entries: seq<nat>, path: seq<nat>, b: nat) {
    IsPath(succs, entries, path) && b in succs[path[|path| - 1]]
  }

  ghost predicate LoadSeen(succs: Cfg, entries: seq<nat>, body: seq<seq<Instr>>, b: nat, p: (Interval, OpId))
    requires |body| == |succs|
  {
    exists path :: LeadsTo(succs, entries, path, b) && p in Flow(Trace(body, path), EMPTY).loads
  }

  ghost predicate StoreSeen(succs: Cfg, entries: seq<nat>, body: seq<seq<Instr>>, b: nat, p: (Interval, OpId))
    requires |body| == |succs|
  {
    exists path :: LeadsTo(succs, entries, path, b) && p in Flow(Trace(body, path), EMPTY).stores
  }

  /** Each pending access is pending at the end of some path to the block. */
  ghost predicate Explained(succs: Cfg, entries: seq<nat>, body: seq<seq<Instr>>, b: nat, info: BlockInfo)
    requires |body| == |succs|
  {
    && (forall p :: p in info.loads ==> LoadSeen(succs, entries, body, b, p))
    && forall p :: p in info.stores ==> StoreSeen(succs, entries, body, b, p)
  }

  lemma TraceOfPath(body: seq<seq<Instr>>, path: seq<nat>, b: nat)
    requires b < |body| && forall i :: 0 <= i < |path| ==> path[i] < |body|
    ensures forall i :: 0 <= i < |path + [b]| ==> (path + [b])[i] < |body|
    ensures Trace(body, path + [b]) == Trace(body, path) + body[b]
  {
    assert (path + [b])[..|path|] == path;
  }

  lemma LongerPath(succs: Cfg, entries: seq<nat>, path: seq<nat>, b: nat)
    requires LeadsTo(succs, entries, path, b) && b < |succs|
    ensures IsPath(succs, entries, path + [b]) && (path + [b])[|path + [b]| - 1] == b
  {
  }

  // Along a path that leads to it, the block starts no conflicting access.
  lemma CleanAfter(filter: Filter, succs: Cfg, entries: seq<nat>, body: seq<seq<Instr>>, path: seq<nat>, b: nat)
    requires |body| == |succs| && AllSeparated(filter, succs, entries, body) && b < |body| && LeadsTo(succs, entries, path, b)
    ensures SeparatedFrom(filter, body[b], Flow(Trace(body, path), EMPTY))
  {
    hide Separated, SeparatedFrom, Conflicts, Clean, Flow, Trace;
    LongerPath(succs, entries, path, b);
    TraceOfPath(body, path, b);
    SeparatedIsClean(filter, Trace(body, path + [b]));
    CleanAppend(filter, Trace(body, path), body[b], EMPTY);
    CleanIffSeparated(filter, body[b], Flow(Trace(body, path), EMPTY));
  }

  lemma SeparatedIsClean(filter: Filter, t: seq<Instr>)
    requires Separated(filter, t)
    ensures Clean(filter, t, EMPTY)
  {
    hide Separated, Conflicts, Clean;
    forall j | 0 <= j < |t| ensures !Conflicts(filter, EMPTY, First(t[j])) {
      NothingConflicts(filter, First(t[j]));
    }
    CleanIffSeparated(filter, t, EMPTY);
  }

  lemma ReachedIsSeparated(filter: Filter, succs: Cfg, entries: seq<nat>, body: seq<seq<Instr>>, b: nat)
    requires |body| == |succs| && AllSeparated(filter, succs, entries, body) && b < |body| && Reached(succs, entries, b)
    ensures Separated(filter, body[b])
  {
    hide Separated, Conflicts, Clean, Flow, Trace;
    var path :| IsPath(succs, entries, path) && path[|path| - 1] == b;
    var front := path[..|path| - 1];
    assert path == front + [b];
    TraceOfPath(body, front, b);
    SeparatedIsClean(filter, Trace(body, path));
    CleanAppend(filter, Trace(body, front), body[b], EMPTY);
    CleanIffSeparated(filter, body[b], Flow(Trace(body, front), EMPTY));
  }

  // A conflict with explained accesses is a conflict along one path.
  lemma ConflictSeen(filter: Filter, succs: Cfg, entries: seq<nat>, body: seq<seq<Instr>>, b: nat, info: BlockInfo, c: BlockInfo)
    returns (path: seq<nat>)
    requires |body| == |succs| && Explained(succs, entries, body, b, info) && Conflicts(filter, info, c)
    ensures LeadsTo(succs, entries, path, b) && Conflicts(filter, Flow(Trace(body, path), EMPTY), c)
  {
    hide Flow, Trace;
    if Meets(filter, info.stores, c.loads) {
      var p, q :| p in info.stores && q in c.loads && Clash(filter, p, q);
      assert StoreSeen(succs, entries, body, b, p);
      path :| LeadsTo(succs, entries, path, b) && p in Flow(Trace(body, path), EMPTY).stores;
    } else if Meets(filter, info.loads, c.stores) {
      var p, q :| p in info.loads && q in c.stores && Clash(filter, p, q);
      assert LoadSeen(succs, entries, body, b, p);
      path :| LeadsTo(succs, entries, path, b) && p in Flow(Trace(body, path), EMPTY).loads;
    } else {
      var p, q :| p in info.stores && q in c.stores && Clash(filter, p, q);
      assert StoreSeen(succs, entries, body, b, p);
      path :| LeadsTo(succs, entries, path, b) && p in Flow(Trace(body, path), EMPTY).stores;
    }
  }

  lemma ExplainedIsClean(filter: Filter, succs: Cfg, entries: seq<nat>, body: seq<seq<Instr>>, b: nat, info: BlockInfo)
    requires |body| == |succs| && AllSeparated(filter, succs, entries, body) && b < |body| && Reached(succs, entries, b)
    requires Explained(succs, entries, body, b, info)
    ensures Clean(filter, body[b], info)
  {
    hide AllSeparated, Explained, Conflicts, Clean, Flow, Trace, Separated, LeadsTo;
    ReachedIsSeparated(filter, succs, entries, body, b);
    var t := body[b];
    forall j | 0 <= j < |t| && Conflicts(filter, info, First(t[j])) ensures SyncIn(t, 0, j) {
      var path := ConflictSeen(filter, succs, entries, body, b, info, First(t[j]));
      CleanAfter(filter, succs, entries, body, path, b);
    }
    CleanIffSeparated(filter, t, info);
  }

  // What some path leaves pending, its continuation through b leaves pending.
  lemma SeenThrough(succs: Cfg, entries: seq<nat>, body: seq<seq<Instr>>, path: seq<nat>, b: nat, s: nat)
    requires |body| == |succs| && b < |body| && s in succs[b]
    requires forall i :: 0 <= i < |path| ==> path[i] < |body|
    requires IsPath(succs, entries, path + [b])
    ensures var info := Flow(body[b], Flow(Trace(body, path), EMPTY));
            Explained(succs, entries, body, s, info)
  {
    hide Flow, Trace, IsPath;
    var longer := path + [b];
    TraceOfPath(body, path, b);
    FlowAppend(Trace(body, path), body[b], EMPTY);
    var info := Flow(body[b], Flow(Trace(body, path), EMPTY));
    assert LeadsTo(succs, entries, longer, s) && Flow(Trace(body, longer), EMPTY) == info;
    forall p | p in info.loads ensures LoadSeen(succs, entries, body, s, p) {
    }
    forall p | p in info.stores ensures StoreSeen(succs, entries, body, s, p) {
    }
  }

  lemma ReachedThrough(succs: Cfg, entries: seq<nat>, body: seq<seq<Instr>>, b: nat, s: nat)
    requires |body| == |succs| && b < |body| && Reached(succs, entries, b) && s in succs[b]
    ensures Explained(succs, entries, body, s, Flow(body[b], EMPTY))
  {
    hide Flow, Trace, Explained;
    var path :| IsPath(succs, entries, path) && path[|path| - 1] == b;
    var front := path[..|path| - 1];
    assert path == front + [b];
    SeenThrough(succs, entries, body, front, b, s);
    FlowMonotone(body[b], EMPTY, Flow(Trace(body, front), EMPTY));
    ExplainedLess(succs, entries, body, s, Flow(body[b], EMPTY), Flow(body[b], Flow(Trace(body, front), EMPTY)));
  }

  lemma ExplainedLess(succs: Cfg, entries: seq<nat>, body: seq<seq<Instr>>, b: nat, less: BlockInfo, more: BlockInfo)
    requires |body| == |succs| && Explained(succs, entries, body, b, more) && less.Within(more)
    ensures Explained(succs, entries, body, b, less)
  {
  }

  lemma ExplainedJoin(succs: Cfg, entries: seq<nat>, body: seq<seq<Instr>>, b: nat, x: BlockInfo, y: BlockInfo)
    requires |body| == |succs| && Explained(succs, entries, body, b, x) && Explained(succs, entries, body, b, y)
    ensures Explained(succs, entries, body, b, x.Join(y))
  {
    hide LoadSeen, StoreSeen;
  }

  // Without a sync in b, what is pending before it stays pending.
  lemma PassedThrough(succs: Cfg, entries: seq<nat>, body: seq<seq<Instr>>, b: nat, info: BlockInfo, s: nat)
    requires |body| == |succs| && b < |body| && s in succs[b] && !HasSync(body[b])
    requires Explained(succs, entries, body, b, info)
    ensures Explained(succs, entries, body, s, info)
  {
    hide Flow, Trace;
    forall p | p in info.loads ensures LoadSeen(succs, entries, body, s, p) {
      assert LoadSeen(succs, entries, body, b, p);
      var path :| LeadsTo(succs, entries, path, b) && p in Flow(Trace(body, path), EMPTY).loads;
      LongerPath(succs, entries, path, b);
      SeenThrough(succs, entries, body, path, b, s);
      FlowSplit(body[b], Flow(Trace(body, path), EMPTY));
    }
    forall p | p in info.stores ensures StoreSeen(succs, entries, body, s, p) {
      assert StoreSeen(succs, entries, body, b, p);
      var path :| LeadsTo(succs, entries, path, b) && p in Flow(Trace(body, path), EMPTY).stores;
      LongerPath(succs, entries, path, b);
      SeenThrough(succs, entries, body, path, b, s);
      FlowSplit(body[b], Flow(Trace(body, path), EMPTY));
    }
  }

  lemma ExplainedFlow(succs: Cfg, entries: seq<nat>, body: seq<seq<Instr>>, b: nat, info: BlockInfo, s: nat)
    requires |body| == |succs| && b < |body| && s in succs[b] && Reached(succs, entries, b)
    requires Explained(succs, entries, body, b, info)
    ensures Explained(succs, entries, body, s, Flow(body[b], info))
  {
    hide Flow, Explained, Reached;
    FlowSplit(body[b], info);
    ReachedThrough(succs, entries, body, b, s);
    if !HasSync(body[b]) {
      PassedThrough(succs, entries, body, b, info, s);
      ExplainedJoin(succs, entries, body, s, info, Flow(body[b], EMPTY));
    }
  }

  // ---------- every turn leaves the function alone ----------

  ghost predicate CalmAt(succs: Cfg, entries: seq<nat>, body: seq<seq<Instr>>, st: State, b: nat)
    requires |body| == |succs| && b < |body|
  {
    && Explained(succs, entries, body, b, Get(st.input, b))
    && Get(st.output, b).Within(Flow(body[b], Get(st.input, b)))
  }

  ghost predicate Calm(succs: Cfg, entries: seq<nat>, body: seq<seq<Instr>>, st: State)
    requires |body| == |succs|
  {
    && IsGraph(succs) && InRange(|succs|, st) && st.body == body && AllReached(succs, entries, st.worklist)
    && forall b :: 0 <= b < |body| ==> CalmAt(succs, entries, body, st, b)
  }

  lemma NothingExplained(succs: Cfg, entries: seq<nat>, body: seq<seq<Instr>>, b: nat)
    requires |body| == |succs|
    ensures Explained(succs, entries, body, b, EMPTY)
  {
  }

  lemma StartIsCalm(succs: Cfg, entries: seq<nat>, body: seq<seq<Instr>>)
    requires Ready(succs, entries, body)
    ensures Calm(succs, entries, body, Start(body, entries))
  {
    hide Explained, Flow;
    EntriesReached(succs, entries);
    assert entries != [] ==> entries[0] in entries;
    forall b | 0 <= b < |body| ensures CalmAt(succs, entries, body, Start(body, entries), b) {
      NothingExplained(succs, entries, body, b);
    }
  }

  // A turn at block c on a function that needs nothing.
  lemma CalmVisit(filter: Filter, succs: Cfg, entries: seq<nat>, body: seq<seq<Instr>>, st: State)
    requires |body| == |succs| && Calm(succs, entries, body, st) && st.worklist != []
    requires NeedsNothing(filter, succs, entries, body)
    ensures var c := st.worklist[0];
            Rewrite(filter, body[c], Get(st.input, c)) == body[c]
  {
    hide Explained, Flow, Rewrite, AllSeparated, WaitsFenced, Clean, Reached;
    var c := st.worklist[0];
    assert c in st.worklist && CalmAt(succs, entries, body, st, c);
    ExplainedIsClean(filter, succs, entries, body, c, Get(st.input, c));
    UnchangedIff(filter, body[c], Get(st.input, c));
  }

  lemma StepIsCalm(filter: Filter, succs: Cfg, entries: seq<nat>, body: seq<seq<Instr>>, st: State)
    requires |body| == |succs| && Calm(succs, entries, body, st) && st.worklist != []
    requires NeedsNothing(filter, succs, entries, body)
    ensures Calm(succs, entries, body, Step(filter, succs, st))
  {
    hide Explained, Flow, Rewrite, NeedsNothing, Reached;
    var c, n := st.worklist[0], Step(filter, succs, st);
    assert c in st.worklist && CalmAt(succs, entries, body, st, c);
    StepInRange(filter, succs, st);
    StepReached(filter, succs, entries, st);
    CalmVisit(filter, succs, entries, body, st);
    assert body[c := body[c]] == body;
    var info := Flow(body[c], Get(st.input, c));
    forall b | 0 <= b < |body| ensures CalmAt(succs, entries, body, n, b) {
      assert CalmAt(succs, entries, body, st, b);
      CalmInput(filter, succs, entries, body, st, info, b);
      FlowMonotone(body[b], Get(st.input, b), Get(n.input, b));
    }
  }

  lemma CalmInput(filter: Filter, succs: Cfg, entries: seq<nat>, body: seq<seq<Instr>>, st: State, info: BlockInfo, b: nat)
    requires |body| == |succs| && Calm(succs, entries, body, st) && st.worklist != [] && b < |body|
    requires NeedsNothing(filter, succs, entries, body) && info == Flow(body[st.worklist[0]], Get(st.input, st.worklist[0]))
    ensures Explained(succs, entries, body, b, Get(Step(filter, succs, st).input, b))
    ensures Get(st.input, b).Within(Get(Step(filter, succs, st).input, b))
    ensures Get(Step(filter, succs, st).output, b) == if b == st.worklist[0] then info else Get(st.output, b)
  {
    hide Explained, Flow, Rewrite, NeedsNothing, Reached;
    var c, n := st.worklist[0], Step(filter, succs, st);
    assert c in st.worklist && CalmAt(succs, entries, body, st, c) && CalmAt(succs, entries, body, st, b);
    CalmVisit(filter, succs, entries, body, st);
    assert Get(st.output, c).Join(info) == info;
    if b in succs[c] {
      ExplainedFlow(succs, entries, body, c, Get(st.input, c), b);
      ExplainedJoin(succs, entries, body, b, Get(st.input, b), info);
    }
  }

  // ---------- the worklist drains ----------

  ghost function AllBlocks(n: nat): (s: set<nat>)
    ensures forall b: nat :: b in s <==> b < n
  {
    if n == 0 then {} else AllBlocks(n - 1) + {n - 1}
  }

  ghost function Unreported(body: seq<seq<Instr>>, st: State): set<Todo> {
    Missing(AllBlocks(|body|), Everything(body), st.output)
  }

  // A turn reports something new, or shortens the worklist.
  lemma TurnLowers(filter: Filter, succs: Cfg, entries: seq<nat>, body: seq<seq<Instr>>, st: State)
    requires |body| == |succs| && Calm(succs, entries, body, st) && st.worklist != [] && Bounded(Everything(body), st)
    requires NeedsNothing(filter, succs, entries, body)
    ensures var n := Step(filter, succs, st);
            || Unreported(body, n) < Unreported(body, st)
            || (Unreported(body, n) == Unreported(body, st) && |n.worklist| < |st.worklist|)
  {
    hide Explained, Flow, Rewrite, NeedsNothing, Reached, Everything, Missing, Grows;
    var c, n := st.worklist[0], Step(filter, succs, st);
    assert c in st.worklist && CalmAt(succs, entries, body, st, c);
    CalmVisit(filter, succs, entries, body, st);
    StepBounded(filter, succs, Everything(body), st);
    StepGrows(filter, succs, st);
    var info := Flow(body[c], Get(st.input, c));
    assert Get(st.output, c).Join(info) == info;
    if !(c in st.output && info == st.output[c]) {
      MissingDrops(AllBlocks(|body|), Everything(body), st, n, c);
    }
  }

  lemma {:induction false} CalmDrains(filter: Filter, succs: Cfg, entries: seq<nat>, body: seq<seq<Instr>>, st: State) returns (k: nat)
    requires |body| == |succs| && Calm(succs, entries, body, st) && Bounded(Everything(body), st)
    requires NeedsNothing(filter, succs, entries, body)
    ensures Iterate(filter, succs, st, k).worklist == []
    decreases Unreported(body, st), |st.worklist|
  {
    hide Step, CalmAt, AllReached, Bounded, Unreported, Everything, NeedsNothing;
    k := 0;
    if st.worklist != [] {
      StepInRange(filter, succs, st);
      StepIsCalm(filter, succs, entries, body, st);
      StepBounded(filter, succs, Everything(body), st);
      TurnLowers(filter, succs, entries, body, st);
      var rest := CalmDrains(filter, succs, entries, body, Step(filter, succs, st));
      StepAtFront(filter, succs, st, rest);
      k := rest + 1;
    }
  }

  lemma {:induction false} IterateIsCalm(filter: Filter, succs: Cfg, entries: seq<nat>, body: seq<seq<Instr>>, k: nat)
    requires Ready(succs, entries, body) && NeedsNothing(filter, succs, entries, body)
    ensures InRange(|succs|, Start(body, entries))
    ensures Calm(succs, entries, body, Iterate(filter, succs, Start(body, entries), k))
  {
    hide Step, CalmAt, NeedsNothing;
    StartIsCalm(succs, entries, body);
    if k > 0 {
      IterateIsCalm(filter, succs, entries, body, k - 1);
      var p := Iterate(filter, succs, Start(body, entries), k - 1);
      if p.worklist != [] {
        StepIsCalm(filter, succs, entries, body, p);
      }
    }
  }

  // ---------- precision ----------

  /** Whenever the worklist is empty, the function is unchanged exactly if it needed nothing. */
  lemma UnchangedIffNeedsNothing(filter: Filter, succs: Cfg, entries: seq<nat>, body: seq<seq<Instr>>, k: nat)
    requires Ready(succs, entries, body) && InRange(|succs|, Start(body, entries))
    requires Iterate(filter, succs, Start(body, entries), k).worklist == []
    ensures Iterate(filter, succs, Start(body, entries), k).body == body <==> NeedsNothing(filter, succs, entries, body)
  {
    hide Iterate, NeedsNothing, CalmAt;
    if NeedsNothing(filter, succs, entries, body) {
      IterateIsCalm(filter, succs, entries, body, k);
    }
    if Iterate(filter, succs, Start(body, entries), k).body == body {
      UnchangedNeedsNothing(filter, succs, entries, body, k);
    }
  }

  /** The worklist drains on every function that needs nothing, loops or not. */
  lemma NeedsNothingDrains(filter: Filter, succs: Cfg, entries: seq<nat>, body: seq<seq<Instr>>)
    requires Ready(succs, entries, body) && NeedsNothing(filter, succs, entries, body)
    ensures Drains(filter, succs, entries, body)
  {
    hide Iterate, NeedsNothing, CalmAt, Everything;
    StartIsCalm(succs, entries, body);
    StartBounded(body, entries);
    var k := CalmDrains(filter, succs, entries, body, Start(body, entries));
  }
}
