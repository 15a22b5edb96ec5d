/** How far the worklist loop of MembarAnalysis::resolve can get (lib/Analysis/Membar.cpp:44-71):
inputs and outputs only grow, and hold nothing but accesses of the function. */
module MembarBounds {
  import opened Intervals
  import opened Wrappers
  import opened MembarSpec
  import opened Membar
  import opened MembarResolve

  // ---------- what a function accesses ----------

  // Everything the operations leave pending, if none of them synchronizes.
  function Accessed(t: seq<Instr>): BlockInfo {
    if t == [] then EMPTY else Last(t[0]).Join(Accessed(t[1..]))
  }

  lemma {:induction false} AccessedAppend(a: seq<Instr>, b: seq<Instr>)
    ensures Accessed(a + b) == Accessed(a).Join(Accessed(b))
  {
    hide Last;
    if a == [] {
      assert a + b == b;
    } else {
      AppendTail(a, b);
      AccessedAppend(a[1..], b);
    }
  }

  // Barriers access nothing.
  lemma {:induction false} RewriteAccesses(filter: Filter, t: seq<Instr>, info: BlockInfo)
    ensures Accessed(Rewrite(filter, t, info)) == Accessed(t)
  {
    hide Conflicts, Flow, Last;
    if t != [] {
      var x, rest := t[0], t[1..];
      var e := Emit(filter, x, rest, info);
      RewriteAccesses(filter, rest, Flow(e, info));
      AccessedAppend(e, Rewrite(filter, rest, Flow(e, info)));
      EmitAccesses(filter, x, rest, info);
    }
  }

  lemma EmitAccesses(filter: Filter, x: Instr, rest: seq<Instr>, info: BlockInfo)
    ensures Accessed(Emit(filter, x, rest, info)) == Last(x)
  {
    assert |[x][1..]| == 0 && [BARRIER, x][1..] == [x] && [x, BARRIER][1..] == [BARRIER] && |[BARRIER][1..]| == 0;
    assert Last(BARRIER) == EMPTY && Accessed([x]) == Last(x) && Accessed([BARRIER]) == EMPTY;
  }

  lemma {:induction false} FlowWithin(t: seq<Instr>, a: BlockInfo, all: BlockInfo)
    requires a.Within(all) && Accessed(t).Within(all)
    ensures Flow(t, a).Within(all)
  {
    hide Last;
    if t != [] {
      FlowWithin(t[1..], Pass(t[0], a), all);
    }
  }

  // What all blocks of a function access together.
  function Everything(body: seq<seq<Instr>>): BlockInfo {
    if body == [] then EMPTY else Accessed(body[0]).Join(Everything(body[1..]))
  }

  lemma {:induction false} EverythingHas(body: seq<seq<Instr>>, b: nat)
    requires b < |body|
    ensures Accessed(body[b]).Within(Everything(body))
  {
    hide Accessed;
    if b > 0 {
      EverythingHas(body[1..], b - 1);
    }
  }

  // ---------- what is pending stays within it ----------

  // Nothing is pending anywhere but accesses of the function.
  ghost predicate Bounded(all: BlockInfo, st: State) {
    && (forall b :: b in st.input ==> st.input[b].Within(all))
    && (forall b :: b in st.output ==> st.output[b].Within(all))
    && forall b :: 0 <= b < |st.body| ==> Accessed(st.body[b]).Within(all)
  }

  lemma StepBounded(filter: Filter, succs: Cfg, all: BlockInfo, st: State)
    requires InRange(|succs|, st) && st.worklist != [] && Bounded(all, st)
    ensures Bounded(all, Step(filter, succs, st))
  {
    hide Flow, Rewrite, Accessed;
    var c, n := st.worklist[0], Step(filter, succs, st);
    var start := Get(st.input, c);
    RewriteAccesses(filter, st.body[c], start);
    FlowWithin(Rewrite(filter, st.body[c], start), start, all);
  }

  lemma StartBounded(body: seq<seq<Instr>>, entries: seq<nat>)
    ensures Bounded(Everything(body), Start(body, entries))
  {
    forall b | 0 <= b < |body| ensures Accessed(body[b]).Within(Everything(body)) {
      EverythingHas(body, b);
    }
  }

  // Inputs and outputs only grow.
  ghost predicate Grows(st: State, n: State) {
    && (forall b :: b in st.output ==> b in n.output && st.output[b].Within(n.output[b]))
    && forall b :: Get(st.input, b).Within(Get(n.input, b))
  }

  lemma StepGrows(filter: Filter, succs: Cfg, st: State)
    requires InRange(|succs|, st) && st.worklist != []
    ensures Grows(st, Step(filter, succs, st))
  {
    hide Flow, Rewrite;
  }

  // The turn at block c reports something new about it.
  ghost predicate News(st: State, n: State, c: nat) {
    c in n.output && (c in st.output ==> n.output[c] != st.output[c])
  }

  lemma EmptyJoins(a: BlockInfo)
    ensures EMPTY.Join(a) == a
  {
  }

  // ---------- what may still become new ----------

  // What may still become new at a block.
  datatype Todo = Visit(b: nat) | SeeLoad(b: nat, load: (Interval, OpId)) | SeeStore(b: nat, store: (Interval, OpId))

  ghost function Missing(blocks: set<nat>, all: BlockInfo, output: InfoMap): set<Todo> {
    (set b | b in blocks && b !in output :: Visit(b))
    + (set b, p | b in blocks && p in all.loads && p !in Get(output, b).loads :: SeeLoad(b, p))
    + (set b, p | b in blocks && p in all.stores && p !in Get(output, b).stores :: SeeStore(b, p))
  }

  lemma MissingShrinks(blocks: set<nat>, all: BlockInfo, st: State, n: State)
    requires Grows(st, n)
    ensures Missing(blocks, all, n.output) <= Missing(blocks, all, st.output)
  {
  }

  lemma MissingDrops(blocks: set<nat>, all: BlockInfo, st: State, n: State, c: nat)
    requires Grows(st, n) && c in blocks && News(st, n, c) && n.output[c].Within(all)
    ensures Missing(blocks, all, n.output) < Missing(blocks, all, st.output)
  {
    MissingShrinks(blocks, all, st, n);
    var before, after := Missing(blocks, all, st.output), Missing(blocks, all, n.output);
    if c !in st.output {
      assert Visit(c) in before && Visit(c) !in after;
    } else if st.output[c].loads != n.output[c].loads {
      var p :| p in n.output[c].loads && p !in st.output[c].loads;
      assert SeeLoad(c, p) in before && SeeLoad(c, p) !in after;
    } else {
      var p :| p in n.output[c].stores && p !in st.output[c].stores;
      assert SeeStore(c, p) in before && SeeStore(c, p) !in after;
    }
  }
}
