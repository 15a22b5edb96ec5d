/** MembarAnalysis::resolve (lib/Analysis/Membar.cpp:21-86): a worklist analysis that edits
the function while it runs.

The function is a flat control flow graph: block b holds the operations `body[b]` before its
terminator and may branch to any block in `succs[b]`. */
module MembarResolve {
  import opened Acyclic
  import opened MembarSpec
  import opened Membar

  type Cfg = Graph

  type InfoMap = map<nat, BlockInfo>

  // operator[] of the source's DenseMap: a missing entry is an empty one.
  function Get(m: InfoMap, b: nat): BlockInfo {
    if b in m then m[b] else EMPTY
  }

  datatype State = State(body: seq<seq<Instr>>, input: InfoMap, output: InfoMap, worklist: seq<nat>)

  function JoinAll(input: InfoMap, targets: seq<nat>, info: BlockInfo): (m: InfoMap)
    ensures forall b :: b in m <==> b in input || b in targets
    ensures forall b :: b in m ==> m[b] == if b in targets then Get(input, b).Join(info) else input[b]
    decreases |targets|
  {
    if targets == [] then input
    else
      var t := targets[0];
      assert forall b :: b in targets <==> b == t || b in targets[1..];
      JoinAll(input[t := Get(input, t).Join(info)], targets[1..], info)
  }

  /** One turn of the worklist loop. */
  function Step(filter: Filter, succs: Cfg, st: State): State
    requires st.worklist != [] && st.worklist[0] < |st.body| == |succs|
  {
    var b, rest := st.worklist[0], st.worklist[1..];
    var start := Get(st.input, b);
    var code := Rewrite(filter, st.body[b], start);
    var info := Flow(code, start);
    var body := st.body[b := code];
    if b in st.output && info == st.output[b] then State(body, st.input, st.output, rest)
    else
      var out := Get(st.output, b).Join(info);
      State(body, JoinAll(st.input, succs[b], out), st.output[b := out], rest + succs[b])
  }

  // ---------- what every turn keeps ----------

  // Block b needs no further visit.
  ghost predicate Settled(filter: Filter, st: State, b: nat) {
    && b < |st.body| && b in st.output
    && Clean(filter, st.body[b], Get(st.input, b))
    && Flow(st.body[b], Get(st.input, b)).Within(st.output[b])
  }

  // Successor s of block b has been told what b leaves pending.
  ghost predicate Told(st: State, b: nat, s: nat) {
    b in st.output && (s in st.worklist || s in st.output) && st.output[b].Within(Get(st.input, s))
  }

  ghost predicate InRange(n: nat, st: State) {
    && |st.body| == n
    && (st.worklist != [] ==> st.worklist[0] < n)
    && (forall b :: b in st.worklist ==> b < n)
    && forall b :: b in st.output ==> b < n
  }

  ghost predicate Invariant(filter: Filter, succs: Cfg, entries: seq<nat>, st: State) {
    && IsGraph(succs) && InRange(|succs|, st)
    && (forall e :: e in entries ==> e in st.worklist || e in st.output)
    && (forall b, s :: b in st.output && b < |succs| && s in succs[b] ==> Told(st, b, s))
    && forall b :: b in st.output && b !in st.worklist ==> Settled(filter, st, b)
  }

  lemma StepSettles(filter: Filter, succs: Cfg, entries: seq<nat>, st: State, b: nat)
    requires Invariant(filter, succs, entries, st) && st.worklist != []
    requires b in Step(filter, succs, st).output && b !in Step(filter, succs, st).worklist
    ensures Settled(filter, Step(filter, succs, st), b)
  {
    hide Conflicts, Clean, Flow, Rewrite;
    var n, c := Step(filter, succs, st), st.worklist[0];
    var start := Get(st.input, c);
    RewriteIsClean(filter, st.body[c], start);
    assert forall x :: x in st.worklist <==> x == c || x in st.worklist[1..];
    if b != c {
      assert b !in st.worklist && b in st.output;
      assert Settled(filter, st, b);
    }
  }

  lemma StepTells(filter: Filter, succs: Cfg, entries: seq<nat>, st: State, b: nat, s: nat)
    requires Invariant(filter, succs, entries, st) && st.worklist != []
    requires b in Step(filter, succs, st).output && b < |succs| && s in succs[b]
    ensures Told(Step(filter, succs, st), b, s)
  {
    hide Conflicts, Clean, Flow, Rewrite, Settled;
    var n, c := Step(filter, succs, st), st.worklist[0];
    assert forall x :: x in st.worklist <==> x == c || x in st.worklist[1..];
    if b in st.output {
      assert Told(st, b, s);
    }
  }

  lemma StepKeepsInvariant(filter: Filter, succs: Cfg, entries: seq<nat>, st: State)
    requires Invariant(filter, succs, entries, st) && st.worklist != []
    ensures Invariant(filter, succs, entries, Step(filter, succs, st))
  {
    hide Conflicts, Clean, Flow, Rewrite, Settled, Told;
    var n, c := Step(filter, succs, st), st.worklist[0];
    assert forall x :: x in st.worklist <==> x == c || x in st.worklist[1..];
    assert n.worklist != [] ==> n.worklist[0] in n.worklist;
    forall b, s | b in n.output && b < |succs| && s in succs[b] ensures Told(n, b, s) {
      StepTells(filter, succs, entries, st, b, s);
    }
    forall b | b in n.output && b !in n.worklist ensures Settled(filter, n, b) {
      StepSettles(filter, succs, entries, st, b);
    }
  }

  // ---------- safety of every path ----------

  // A path through the control flow graph, from an entry block.
  ghost predicate IsPath(succs: Cfg, entries: seq<nat>, path: seq<nat>) {
    && |path| > 0 && path[0] in entries
    && (forall i :: 0 <= i < |path| ==> path[i] < |succs|)
    && forall i :: 0 < i < |path| ==> path[i] in succs[path[i - 1]]
  }

  // The operations executed along a path.
  function Trace(body: seq<seq<Instr>>, path: seq<nat>): seq<Instr>
    requires forall i :: 0 <= i < |path| ==> path[i] < |body|
  {
    if path == [] then [] else Trace(body, path[..|path| - 1]) + body[path[|path| - 1]]
  }

  /** Once the worklist is empty, nothing conflicts along any path of any length, and what is
      pending at its end is part of the last block's output. */
  lemma {:induction false} PathsAreClean(filter: Filter, succs: Cfg, entries: seq<nat>, st: State, path: seq<nat>)
    requires Invariant(filter, succs, entries, st) && st.worklist == [] && IsPath(succs, entries, path)
    ensures path[|path| - 1] in st.output
    ensures Clean(filter, Trace(st.body, path), EMPTY)
    ensures Flow(Trace(st.body, path), EMPTY).Within(st.output[path[|path| - 1]])
  {
    hide Conflicts, Clean, Flow, IsGraph;
    var last, front := path[|path| - 1], path[..|path| - 1];
    var before := Trace(st.body, front);
    if |path| == 1 {
      assert before == [];
      CleanOfNothing(filter);
    } else {
      PathsAreClean(filter, succs, entries, st, front);
      assert Told(st, path[|path| - 2], last);
    }
    assert Settled(filter, st, last);
    var there := Flow(before, EMPTY);
    assert there.Within(Get(st.input, last));
    CleanAppend(filter, before, st.body[last], EMPTY);
    FlowAppend(before, st.body[last], EMPTY);
    CleanMonotone(filter, st.body[last], there, Get(st.input, last));
    FlowMonotone(st.body[last], there, Get(st.input, last));
  }

  lemma CleanOfNothing(filter: Filter)
    ensures Clean(filter, [], EMPTY) && Flow([], EMPTY) == EMPTY
  {
  }

  ghost predicate AllSeparated(filter: Filter, succs: Cfg, entries: seq<nat>, body: seq<seq<Instr>>)
    requires |body| == |succs|
  {
    forall path :: IsPath(succs, entries, path) ==> Separated(filter, Trace(body, path))
  }

  lemma DrainedIsSeparated(filter: Filter, succs: Cfg, entries: seq<nat>, st: State)
    requires Invariant(filter, succs, entries, st) && st.worklist == []
    ensures AllSeparated(filter, succs, entries, st.body)
  {
    hide Conflicts, Clean, Flow, Separated, SeparatedFrom, Trace;
    forall path | IsPath(succs, entries, path) ensures Separated(filter, Trace(st.body, path)) {
      PathsAreClean(filter, succs, entries, st, path);
      CleanIffSeparated(filter, Trace(st.body, path), EMPTY);
    }
  }

  // ---------- the loop as a whole ----------

  function Start(body: seq<seq<Instr>>, entries: seq<nat>): State {
    State(body, map[], map[], entries)
  }

  ghost predicate Ready(succs: Cfg, entries: seq<nat>, body: seq<seq<Instr>>) {
    IsGraph(succs) && |body| == |succs| && forall e :: e in entries ==> e < |succs|
  }

  // The state after k turns, or when the worklist is empty.
  function Iterate(filter: Filter, succs: Cfg, st: State, k: nat): (r: State)
    requires IsGraph(succs) && InRange(|succs|, st)
    ensures InRange(|succs|, r)
  {
    if k == 0 then st
    else
      var p := Iterate(filter, succs, st, k - 1);
      if p.worklist == [] then p
      else
        StepInRange(filter, succs, p);
        Step(filter, succs, p)
  }

  lemma StepInRange(filter: Filter, succs: Cfg, st: State)
    requires IsGraph(succs) && InRange(|succs|, st) && st.worklist != []
    ensures InRange(|succs|, Step(filter, succs, st))
  {
    hide Flow, Rewrite;
    var n, c := Step(filter, succs, st), st.worklist[0];
    assert c in st.worklist && forall x :: x in st.worklist[1..] ==> x in st.worklist;
    assert forall x :: x in n.worklist ==> x in st.worklist[1..] || x in succs[c];
    assert n.worklist != [] ==> n.worklist[0] in n.worklist;
  }

  lemma StartInvariant(filter: Filter, succs: Cfg, entries: seq<nat>, body: seq<seq<Instr>>)
    requires Ready(succs, entries, body)
    ensures InRange(|succs|, Start(body, entries)) && Invariant(filter, succs, entries, Start(body, entries))
  {
    assert entries != [] ==> entries[0] in entries;
  }

  lemma {:induction false} IterateKeepsInvariant(filter: Filter, succs: Cfg, entries: seq<nat>, body: seq<seq<Instr>>, k: nat)
    requires Ready(succs, entries, body)
    ensures InRange(|succs|, Start(body, entries))
    ensures Invariant(filter, succs, entries, Iterate(filter, succs, Start(body, entries), k))
  {
    hide Step, Invariant;
    StartInvariant(filter, succs, entries, body);
    if k > 0 {
      IterateKeepsInvariant(filter, succs, entries, body, k - 1);
      var p := Iterate(filter, succs, Start(body, entries), k - 1);
      if p.worklist != [] {
        StepKeepsInvariant(filter, succs, entries, p);
      }
    }
  }

  // Taking a turn first or last is the same.
  lemma {:induction false} StepAtFront(filter: Filter, succs: Cfg, st: State, k: nat)
    requires IsGraph(succs) && InRange(|succs|, st) && st.worklist != []
    ensures InRange(|succs|, Step(filter, succs, st))
    ensures Iterate(filter, succs, st, k + 1) == Iterate(filter, succs, Step(filter, succs, st), k)
  {
    hide Step;
    StepInRange(filter, succs, st);
    if k > 0 {
      StepAtFront(filter, succs, st, k - 1);
    }
  }

  lemma WorklistInRange(n: nat, st: State)
    requires InRange(n, st)
    ensures forall i :: 0 <= i < |st.worklist| ==> st.worklist[i] < n
  {
    assert forall i :: 0 <= i < |st.worklist| ==> st.worklist[i] in st.worklist;
  }

  /** After some number of turns the worklist is empty. */
  ghost predicate Drains(filter: Filter, succs: Cfg, entries: seq<nat>, body: seq<seq<Instr>>)
    requires Ready(succs, entries, body)
  {
    assert entries != [] ==> entries[0] in entries;
    exists k: nat :: Iterate(filter, succs, Start(body, entries), k).worklist == []
  }
}
