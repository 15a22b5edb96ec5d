/** The analysis as the source runs it: `update` edits the block under the cursor, `resolve`
drives the worklist (lib/Analysis/Membar.cpp:21-185). */
module MembarAnalysis {
  import opened MembarSpec
  import opened Membar
  import opened MembarResolve
  import opened MembarDrains
  import opened MembarQuiet
  import opened MembarHazards
  import opened MembarSafety

  // A scratch buffer together with other shared memory accesses is a fatal error.
  predicate Supported(x: Instr) {
    x.op.Access? && x.op.scratch.Some? ==> x.op.loads == {} && x.op.stores == {}
  }

  ghost predicate AllSupported(body: seq<Instr>) {
    forall i :: 0 <= i < |body| ==> Supported(body[i])
  }

  ghost predicate FunctionSupported(body: seq<seq<Instr>>) {
    forall b :: 0 <= b < |body| ==> AllSupported(body[b])
  }

  lemma {:induction false} RewriteSupported(filter: Filter, body: seq<Instr>, info: BlockInfo)
    requires AllSupported(body)
    ensures AllSupported(Rewrite(filter, body, info))
  {
    hide Conflicts, Flow;
    if body != [] {
      RewriteSupported(filter, body[1..], Flow(Emit(filter, body[0], body[1..], info), info));
    }
  }

  // Moving past an operation that is supported does not change what is left to reject.
  lemma EmitSupported(filter: Filter, was: seq<Instr>, i: nat, info: BlockInfo, now: seq<Instr>, next: nat)
    requires i < |was| && now == was[..i] + Emit(filter, was[i], was[i + 1..], info) + was[i + 1..]
    requires next == if Unfenced(was[i], was[i + 1..]) then i + 1 else i + |Emit(filter, was[i], was[i + 1..], info)|
    requires Supported(was[i])
    ensures next <= |now| && (AllSupported(now[next..]) <==> AllSupported(was[i..]))
  {
    hide Conflicts;
    var rest := was[i + 1..];
    assert was[i..] == [was[i]] + rest;
    if Unfenced(was[i], rest) {
      assert now[next..] == [BARRIER] + rest;
      SupportedTail(BARRIER, rest);
    } else {
      assert now[next..] == rest;
    }
    SupportedTail(was[i], rest);
  }

  lemma Rejected(t: seq<Instr>, i: nat)
    requires i < |t| && !Supported(t[i])
    ensures !AllSupported(t[i..])
  {
    assert t[i..][0] == t[i];
  }

  lemma SupportedTail(x: Instr, rest: seq<Instr>)
    ensures AllSupported([x] + rest) <==> Supported(x) && AllSupported(rest)
  {
    hide Supported;
    var t := [x] + rest;
    assert t[0] == x;
    forall i | 0 <= i < |rest| && AllSupported(t) ensures Supported(rest[i]) {
      assert t[i + 1] == rest[i];
    }
    forall i | 0 <= i < |t| && Supported(x) && AllSupported(rest) ensures Supported(t[i]) {
      assert i > 0 ==> t[i] == rest[i - 1];
    }
  }

  lemma RewriteBarrier(filter: Filter, rest: seq<Instr>)
    ensures Rewrite(filter, [BARRIER] + rest, EMPTY) == [BARRIER] + Rewrite(filter, rest, EMPTY)
    ensures Flow([BARRIER] + Rewrite(filter, rest, EMPTY), EMPTY) == Flow(Rewrite(filter, rest, EMPTY), EMPTY)
  {
    hide Conflicts;
    RewriteStep(filter, BARRIER, rest, EMPTY);
    CleanOne(filter, BARRIER, EMPTY);
  }

  // Turns left in a visit: an unfenced wait takes one more.
  ghost function Work(body: seq<Instr>): nat {
    if body == [] then 0 else (if Unfenced(body[0], body[1..]) then 2 else 1) + Work(body[1..])
  }

  lemma NothingVisited(filter: Filter, code: seq<Instr>, start: BlockInfo)
    ensures code[..0] + Rewrite(filter, code[0..], start) == Rewrite(filter, code, start)
    ensures code[0..] == code
  {
    assert code[0..] == code;
  }

  lemma AllVisited(filter: Filter, code: seq<Instr>, info: BlockInfo)
    ensures code[..|code|] + Rewrite(filter, code[|code|..], info) == code
    ensures Flow(Rewrite(filter, code[|code|..], info), info) == info
  {
  }

  lemma WorkStep(x: Instr, rest: seq<Instr>)
    ensures Work([x] + rest) == (if Unfenced(x, rest) then 2 else 1) + Work(rest)
  {
    assert ([x] + rest)[1..] == rest;
  }

  // One turn of the loop over a block's operations: the outcome of the visit stays the same.
  lemma CursorMoved(filter: Filter, was: seq<Instr>, i: nat, before: BlockInfo, now: seq<Instr>, next: nat, info: BlockInfo)
    requires i < |was| && now == was[..i] + Emit(filter, was[i], was[i + 1..], before) + was[i + 1..]
    requires info == Flow(Emit(filter, was[i], was[i + 1..], before), before)
    requires next == if Unfenced(was[i], was[i + 1..]) then i + 1 else i + |Emit(filter, was[i], was[i + 1..], before)|
    ensures next <= |now| && now[..next] + Rewrite(filter, now[next..], info) == was[..i] + Rewrite(filter, was[i..], before)
    ensures Flow(Rewrite(filter, now[next..], info), info) == Flow(Rewrite(filter, was[i..], before), before)
    ensures Work(now[next..]) < Work(was[i..])
  {
    hide Conflicts, First, Flow, Rewrite, Work, Pass;
    var front, x, rest := was[..i], was[i], was[i + 1..];
    var e := Emit(filter, x, rest, before);
    assert was[i..] == [x] + rest;
    RewriteStep(filter, x, rest, before);
    WorkStep(x, rest);
    if Unfenced(x, rest) {
      assert now[..next] == front + [x] && now[next..] == [BARRIER] + rest;
      WaitThenBarrier(x, before);
      RewriteBarrier(filter, rest);
      WorkStep(BARRIER, rest);
      assert (front + [x]) + ([BARRIER] + Rewrite(filter, rest, EMPTY)) == front + (e + Rewrite(filter, rest, EMPTY));
    } else {
      assert now[..next] == front + e && now[next..] == rest;
    }
  }

  lemma WaitThenBarrier(x: Instr, before: BlockInfo)
    ensures Flow([x, BARRIER], before) == EMPTY
  {
    hide Conflicts;
    CleanPair((_, _) => false, x, BARRIER, before);
  }

  // ---------- the worklist loop ----------

  /** Nothing but barriers was added to the function. */
  ghost predicate BarriersAdded(code: seq<seq<Instr>>, body: seq<seq<Instr>>) {
    |code| == |body| && forall b :: 0 <= b < |body| ==> Extends(code[b], body[b])
  }

  lemma NothingAdded(code: seq<seq<Instr>>)
    ensures BarriersAdded(code, code)
  {
    forall b | 0 <= b < |code| ensures Extends(code[b], code[b]) {
      ExtendsItself(code[b]);
    }
  }

  lemma BarriersAddedStep(filter: Filter, code: seq<seq<Instr>>, was: seq<seq<Instr>>, b: nat, info: BlockInfo)
    requires BarriersAdded(code, was) && b < |was|
    ensures BarriersAdded(code, was[b := Rewrite(filter, was[b], info)])
    ensures FunctionSupported(was) ==> FunctionSupported(was[b := Rewrite(filter, was[b], info)])
  {
    hide Extends, Rewrite, AllSupported;
    RewriteExtends(filter, code[b], was[b], info);
    if AllSupported(was[b]) {
      RewriteSupported(filter, was[b], info);
    }
  }

  // `st` is the state of the analysis of `code` after so many turns.
  ghost predicate AfterTurns(filter: Filter, succs: Cfg, entries: seq<nat>, code: seq<seq<Instr>>, turns: nat, st: State) {
    && Ready(succs, entries, code) && InRange(|succs|, Start(code, entries))
    && st == Iterate(filter, succs, Start(code, entries), turns)
    && BarriersAdded(code, st.body) && (FunctionSupported(code) ==> FunctionSupported(st.body))
  }

  lemma NoTurnYet(filter: Filter, succs: Cfg, entries: seq<nat>, code: seq<seq<Instr>>)
    requires Ready(succs, entries, code)
    ensures AfterTurns(filter, succs, entries, code, 0, Start(code, entries))
  {
    hide BarriersAdded;
    StartInvariant(filter, succs, entries, code);
    NothingAdded(code);
  }

  lemma TurnAllowed(filter: Filter, succs: Cfg, entries: seq<nat>, code: seq<seq<Instr>>, turns: nat, st: State)
    requires AfterTurns(filter, succs, entries, code, turns, st) && st.worklist != []
    ensures st.worklist[0] < |st.body| == |succs|
    ensures FunctionSupported(code) ==> AllSupported(st.body[st.worklist[0]])
  {
    hide Iterate, AllSupported, BarriersAdded;
  }

  lemma TurnTaken(filter: Filter, succs: Cfg, entries: seq<nat>, code: seq<seq<Instr>>, turns: nat, st: State)
    requires AfterTurns(filter, succs, entries, code, turns, st) && st.worklist != [] && st.worklist[0] < |st.body| == |succs|
    ensures AfterTurns(filter, succs, entries, code, turns + 1, Step(filter, succs, st))
  {
    hide Flow, Rewrite, BarriersAdded, FunctionSupported;
    BarriersAddedStep(filter, code, st.body, st.worklist[0], Get(st.input, st.worklist[0]));
  }

  // The worklist has not drained within k turns.
  ghost predicate Pending(filter: Filter, succs: Cfg, entries: seq<nat>, body: seq<seq<Instr>>, k: nat)
    requires Ready(succs, entries, body)
  {
    StartInvariant(filter, succs, entries, body);
    Iterate(filter, succs, Start(body, entries), k).worklist != []
  }

  lemma {:induction false} StaysDrained(filter: Filter, succs: Cfg, entries: seq<nat>, code: seq<seq<Instr>>, turns: nat, k: nat, st: State)
    requires AfterTurns(filter, succs, entries, code, turns, st) && st.worklist == [] && turns <= k
    ensures !Pending(filter, succs, entries, code, k) && Iterate(filter, succs, Start(code, entries), k) == st
  {
    hide Step, BarriersAdded, FunctionSupported;
    if turns < k {
      StaysDrained(filter, succs, entries, code, turns, k - 1, st);
    }
  }

  /** After some number of turns the worklist is empty, or the next block has an operation that is
      not supported. */
  ghost predicate Stops(filter: Filter, succs: Cfg, entries: seq<nat>, body: seq<seq<Instr>>)
    requires Ready(succs, entries, body)
  {
    StartInvariant(filter, succs, entries, body);
    exists k: nat :: Stopped(Iterate(filter, succs, Start(body, entries), k))
  }

  ghost predicate Stopped(st: State) {
    st.worklist != [] && st.worklist[0] < |st.body| ==> !AllSupported(st.body[st.worklist[0]])
  }

  lemma DrainsStops(filter: Filter, succs: Cfg, entries: seq<nat>, body: seq<seq<Instr>>)
    requires Ready(succs, entries, body) && Drains(filter, succs, entries, body)
    ensures Stops(filter, succs, entries, body)
  {
    hide Iterate;
    StartInvariant(filter, succs, entries, body);
    var k: nat :| Iterate(filter, succs, Start(body, entries), k).worklist == [];
    assert Stopped(Iterate(filter, succs, Start(body, entries), k));
  }

  /** So the run ends whenever every cycle that can be reached has a steady block, and whenever the
      function needs no barrier. */
  lemma ResolveEnds(filter: Filter, succs: Cfg, entries: seq<nat>, body: seq<seq<Instr>>)
    requires Ready(succs, entries, body)
    requires CyclesSteady(filter, succs, entries, body) || NeedsNothing(filter, succs, entries, body)
    ensures Stops(filter, succs, entries, body)
  {
    hide CyclesSteady, NeedsNothing, Drains, Stops;
    if CyclesSteady(filter, succs, entries, body) {
      SteadyCyclesDrain(filter, succs, entries, body);
    } else {
      NeedsNothingDrains(filter, succs, entries, body);
    }
    DrainsStops(filter, succs, entries, body);
  }

  // ---------- what callers are told ----------

  method CollectExits(output: InfoMap, exits: seq<nat>) returns (dangling: BlockInfo)
    ensures forall b :: b in exits ==> Get(output, b).Within(dangling)
  {
    dangling := EMPTY;
    for i := 0 to |exits|
      invariant forall k :: 0 <= k < i ==> Get(output, exits[k]).Within(dangling)
    {
      dangling := dangling.Join(Get(output, exits[i]));
    }
  }

  /** What the analysis has done to the function: barriers were added, so that no path has a hazard
      without one in between, and none if that was so already. */
  ghost predicate Resolved(filter: Filter, succs: Cfg, entries: seq<nat>, exits: seq<nat>, before: seq<seq<Instr>>, after: seq<seq<Instr>>, dangling: BlockInfo)
    requires |before| == |succs|
  {
    && BarriersAdded(before, after)
    && Safe(filter, succs, entries, after)
    && Reported(succs, entries, after, exits, dangling)
    && (after == before <==> Safe(filter, succs, entries, before))
  }

  lemma DrainedIsResolved(filter: Filter, succs: Cfg, entries: seq<nat>, exits: seq<nat>, code: seq<seq<Instr>>, turns: nat, st: State, dangling: BlockInfo)
    requires AfterTurns(filter, succs, entries, code, turns, st) && st.worklist == []
    requires forall b :: b in exits ==> Get(st.output, b).Within(dangling)
    ensures Resolved(filter, succs, entries, exits, code, st.body, dangling) && Drains(filter, succs, entries, code)
  {
    hide Iterate, Reported, Safe, Invariant, BarriersAdded, FunctionSupported;
    IterateKeepsInvariant(filter, succs, entries, code, turns);
    DrainedIsSafe(filter, succs, entries, code, turns);
    UnchangedIffSafe(filter, succs, entries, code, turns);
    ExitsReported(filter, succs, entries, st, exits, dangling);
  }

  class MembarAnalysis {
    const filter: Filter
    const succs: Cfg
    var body: seq<seq<Instr>>

    constructor (filter: Filter, succs: Cfg, body: seq<seq<Instr>>)
      ensures this.filter == filter && this.succs == succs && this.body == body
    {
      this.filter := filter;
      this.succs := succs;
      this.body := body;
    }

    // builder->insert at position i of block b
    method Insert(b: nat, i: nat, x: Instr)
      requires b < |body| && i <= |body[b]|
      modifies this`body
      ensures body == old(body)[b := old(body[b][..i]) + [x] + old(body[b][i..])]
    {
      body := body[b := body[b][..i] + [x] + body[b][i..]];
    }

    /** `update`, for the operation at position i; `next` is the position of the operation
        that follows it. */
    method Update(b: nat, i: nat, info: BlockInfo) returns (ok: bool, after: BlockInfo, next: nat)
      requires b < |body| && i < |body[b]|
      modifies this`body
      ensures ok <==> Supported(old(body[b][i]))
      ensures !ok ==> body == old(body)
      ensures ok ==>
                var x, rest := old(body[b][i]), old(body[b][i + 1..]);
                var e := Emit(filter, x, rest, info);
                && body == old(body)[b := old(body[b][..i]) + e + rest]
                && after == Flow(e, info)
                && next == if Unfenced(x, rest) then i + 1 else i + |e|
      ensures ok ==> (|body[b]| == |old(body[b])| + 1 <==>
                        var x := old(body[b][i]);
                        if x.op.AsyncWait? then !(i + 1 < |old(body[b])| && old(body[b])[i + 1].op.Barrier?)
                        else Endangers(filter, info, x))
      ensures |body[b]| <= |old(body[b])| + 1
    {
      ConflictsIffEndangers(filter, info, body[b][i]);
      hide Endangers;
      var x := body[b][i];
      ghost var rest := body[b][i + 1..];
      ghost var front := body[b][..i];
      assert body[b] == front + [x] + rest && body[b][..i + 1] == front + [x];
      assert front + [BARRIER] + ([x] + rest) == front + [BARRIER, x] + rest && body[b][i..] == [x] + rest;
      assert front + [x] + [BARRIER] + rest == front + [x, BARRIER] + rest;
      assert body == body[b := body[b]];
      CleanPair(filter, x, BARRIER, info);
      CleanPair(filter, BARRIER, x, info);
      CleanOne(filter, x, info);
      ok, after, next := true, info, i + 1;
      if x.op.Barrier? {
        after := EMPTY;
        return;
      }
      if x.op.AsyncWait? && !(i + 1 < |body[b]| && body[b][i + 1].op.Barrier?) {
        Insert(b, i + 1, BARRIER);
        after := EMPTY;
        return;
      }
      var cur := EMPTY;
      if x.op.Access? {
        cur := BlockInfo(Tagged(x.op.loads, x.id), Tagged(x.op.stores, x.id));
      }
      if x.op.Access? && x.op.scratch.Some? {
        var s := x.op.scratch.value;
        if x.op.loads != {} || x.op.stores != {} {
          ok := false;
          return;
        }
        cur := BlockInfo(cur.loads, cur.stores + {(s, x.id)});
        if Conflicts(filter, info, cur) {
          Insert(b, i, BARRIER);
          next := i + 2;
        }
        after := EMPTY;
        cur := BlockInfo(cur.loads + {(s, x.id)}, cur.stores);
      } else if Conflicts(filter, info, cur) {
        Insert(b, i, BARRIER);
        next := i + 2;
        after := EMPTY;
      }
      after := after.Join(cur);
    }

    /** The loop over one block's operations. */
    method VisitBlock(b: nat, start: BlockInfo) returns (ok: bool, info: BlockInfo)
      requires b < |body|
      modifies this`body
      ensures ok <==> AllSupported(old(body[b]))
      ensures ok ==> body == old(body)[b := Rewrite(filter, old(body[b]), start)]
      ensures ok ==> info == Flow(body[b], start)
    {
      hide Emit, Rewrite, Flow, Supported;
      ok, info := true, start;
      var i: nat := 0;
      ghost var code := body[b];
      NothingVisited(filter, code, start);
      while i < |body[b]|
        invariant |body| == |old(body)| && i <= |body[b]|
        invariant body == old(body)[b := body[b]]
        invariant body[b][..i] + Rewrite(filter, body[b][i..], info) == Rewrite(filter, code, start)
        invariant Flow(Rewrite(filter, body[b][i..], info), info) == Flow(Rewrite(filter, code, start), start)
        invariant AllSupported(code) <==> AllSupported(body[b][i..])
        decreases Work(body[b][i..])
      {
        ghost var was := body[b];
        ghost var before := info;
        var next: nat;
        ok, info, next := Update(b, i, info);
        if !ok {
          Rejected(was, i);
          return;
        }
        EmitSupported(filter, was, i, before, body[b], next);
        CursorMoved(filter, was, i, before, body[b], next, info);
        i := next;
      }
      AllVisited(filter, body[b], info);
    }

    // One turn of the worklist loop; false for an operation that is not supported.
    method Turn(input: InfoMap, output: InfoMap, worklist: seq<nat>) returns (ok: bool, input': InfoMap, output': InfoMap, worklist': seq<nat>)
      requires worklist != [] && worklist[0] < |body| == |succs|
      modifies this`body
      ensures ok <==> AllSupported(old(body[worklist[0]]))
      ensures ok ==> State(body, input', output', worklist') == Step(filter, succs, State(old(body), input, output, worklist))
    {
      hide Flow, Rewrite, AllSupported;
      input', output' := input, output;
      var b := worklist[0];
      worklist' := worklist[1..];
      var info: BlockInfo;
      ok, info := VisitBlock(b, Get(input, b));
      if !ok {
        return;
      }
      if !(b in output && info == output[b]) {
        var out := Get(output, b).Join(info);
        output' := output[b := out];
        input' := JoinAll(input, succs[b], out);
        worklist' := worklist[1..] + succs[b];
      }
    }

    /** `resolve`, on every function on which it ends.  `exits` lists the blocks that end in a
        return; what they leave pending is reported to callers. */
    method Resolve(entries: seq<nat>, exits: seq<nat>) returns (r: Outcome)
      requires Ready(succs, entries, body) && Stops(filter, succs, entries, body)
      modifies this`body
      ensures r.Fatal? || r.Done?
      ensures r.Fatal? ==> !FunctionSupported(old(body))
      ensures r.Done? ==> Drains(filter, succs, entries, old(body))
      ensures r.Done? ==> Resolved(filter, succs, entries, exits, old(body), body, r.dangling)
    {
      hide Iterate, Step, Drains, Resolved, AllSupported, BarriersAdded, InRange;
      ghost var code := body;
      StartInvariant(filter, succs, entries, body);
      NoTurnYet(filter, succs, entries, body);
      ghost var last: nat :| Stopped(Iterate(filter, succs, Start(body, entries), last));
      ghost var turns := 0;
      var input: InfoMap, output: InfoMap, worklist := map[], map[], entries;
      while worklist != []
        invariant turns <= last
        invariant AfterTurns(filter, succs, entries, code, turns, State(body, input, output, worklist))
        decreases last - turns
      {
        ghost var st := State(body, input, output, worklist);
        TurnAllowed(filter, succs, entries, code, turns, st);
        var ok;
        ok, input, output, worklist := Turn(input, output, worklist);
        if !ok {
          return Fatal;
        }
        TurnTaken(filter, succs, entries, code, turns, st);
        turns := turns + 1;
      }
      var dangling := CollectExits(output, exits);
      DrainedIsResolved(filter, succs, entries, exits, code, turns, State(body, input, output, worklist), dangling);
      r := Done(dangling);
    }

    /** `resolve` on any function, giving up after `fuel` turns. */
    method ResolveWithin(entries: seq<nat>, exits: seq<nat>, fuel: nat) returns (r: Outcome)
      requires Ready(succs, entries, body)
      modifies this`body
      ensures r.Fatal? ==> !FunctionSupported(old(body))
      ensures r.OutOfFuel? ==> Pending(filter, succs, entries, old(body), fuel)
      ensures r.Done? ==> !Pending(filter, succs, entries, old(body), fuel)
      ensures r.Done? ==> Resolved(filter, succs, entries, exits, old(body), body, r.dangling)
    {
      hide Iterate, Step, Drains, Resolved, AllSupported, BarriersAdded, InRange;
      ghost var code := body;
      StartInvariant(filter, succs, entries, body);
      NoTurnYet(filter, succs, entries, body);
      var turns := 0;
      var input: InfoMap, output: InfoMap, worklist := map[], map[], entries;
      while worklist != []
        invariant turns <= fuel
        invariant AfterTurns(filter, succs, entries, code, turns, State(body, input, output, worklist))
        decreases fuel - turns
      {
        if turns == fuel {
          return OutOfFuel;
        }
        ghost var st := State(body, input, output, worklist);
        TurnAllowed(filter, succs, entries, code, turns, st);
        var ok;
        ok, input, output, worklist := Turn(input, output, worklist);
        if !ok {
          return Fatal;
        }
        TurnTaken(filter, succs, entries, code, turns, st);
        turns := turns + 1;
      }
      var dangling := CollectExits(output, exits);
      ghost var st := State(body, input, output, worklist);
      DrainedIsResolved(filter, succs, entries, exits, code, turns, st, dangling);
      StaysDrained(filter, succs, entries, code, turns, fuel, st);
      r := Done(dangling);
    }
  }

  datatype Outcome = Fatal | OutOfFuel | Done(dangling: BlockInfo)
}
