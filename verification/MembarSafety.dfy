/** What MembarAnalysis::resolve is for (lib/Analysis/Membar.cpp:21-80), in terms of operations and
interval bounds: after it, no path has a hazard without a barrier in between. */
module MembarSafety {
  import opened MembarSpec
  import opened Membar
  import opened MembarResolve
  import opened MembarDrains
  import opened MembarQuiet
  import opened MembarHazards

  /** Every path is guarded, and a barrier follows every async wait that can be reached. */
  ghost predicate Safe(filter: Filter, succs: Cfg, entries: seq<nat>, body: seq<seq<Instr>>)
    requires |body| == |succs|
  {
    && (forall path :: IsPath(succs, entries, path) ==> Guarded(filter, Trace(body, path)))
    && forall b :: 0 <= b < |body| && Reached(succs, entries, b) ==> Fenced(body[b])
  }

  lemma SafeIffNeedsNothing(filter: Filter, succs: Cfg, entries: seq<nat>, body: seq<seq<Instr>>)
    requires |body| == |succs|
    ensures Safe(filter, succs, entries, body) <==> NeedsNothing(filter, succs, entries, body)
  {
    hide Guarded, Separated, Fenced, WaitsFenced, Trace, Reached;
    if Safe(filter, succs, entries, body) {
      forall path | IsPath(succs, entries, path) ensures Separated(filter, Trace(body, path)) {
        SeparatedIffGuarded(filter, Trace(body, path));
      }
      forall b | 0 <= b < |body| && Reached(succs, entries, b) ensures WaitsFenced(body[b]) {
        WaitsFencedIff(body[b]);
      }
    }
    if NeedsNothing(filter, succs, entries, body) {
      forall path | IsPath(succs, entries, path) ensures Guarded(filter, Trace(body, path)) {
        SeparatedIffGuarded(filter, Trace(body, path));
      }
      forall b | 0 <= b < |body| && Reached(succs, entries, b) ensures Fenced(body[b]) {
        WaitsFencedIff(body[b]);
      }
    }
  }

  /** With the worklist empty, the function is safe. */
  lemma DrainedIsSafe(filter: Filter, succs: Cfg, entries: seq<nat>, code: seq<seq<Instr>>, k: nat)
    requires Ready(succs, entries, code) && InRange(|succs|, Start(code, entries))
    requires Iterate(filter, succs, Start(code, entries), k).worklist == []
    ensures var body := Iterate(filter, succs, Start(code, entries), k).body;
            |body| == |succs| && Safe(filter, succs, entries, body)
  {
    hide Iterate, AllSeparated, Invariant, WaitsFenced, Reached, Safe;
    var st := Iterate(filter, succs, Start(code, entries), k);
    IterateKeepsInvariant(filter, succs, entries, code, k);
    DrainedIsSeparated(filter, succs, entries, st);
    NothingVisitedYet(code, entries);
    IterateFenced(filter, succs, Start(code, entries), k);
    forall b | 0 <= b < |st.body| && Reached(succs, entries, b) ensures WaitsFenced(st.body[b]) {
      DrainedVisited(filter, succs, entries, st, b);
    }
    SafeIffNeedsNothing(filter, succs, entries, st.body);
  }

  lemma NothingVisitedYet(code: seq<seq<Instr>>, entries: seq<nat>)
    ensures VisitedFenced(Start(code, entries))
  {
  }

  /** Whenever the worklist is empty, the function is unchanged exactly if it was safe. */
  lemma UnchangedIffSafe(filter: Filter, succs: Cfg, entries: seq<nat>, code: seq<seq<Instr>>, k: nat)
    requires Ready(succs, entries, code) && InRange(|succs|, Start(code, entries))
    requires Iterate(filter, succs, Start(code, entries), k).worklist == []
    ensures Iterate(filter, succs, Start(code, entries), k).body == code <==> Safe(filter, succs, entries, code)
  {
    hide Iterate, NeedsNothing, Safe;
    UnchangedIffNeedsNothing(filter, succs, entries, code, k);
    SafeIffNeedsNothing(filter, succs, entries, code);
  }

  /** Callers are told of every access that a path to a return makes and no separator follows. */
  ghost predicate Reported(succs: Cfg, entries: seq<nat>, body: seq<seq<Instr>>, exits: seq<nat>, dangling: BlockInfo)
    requires |body| == |succs|
  {
    forall path, i: nat, p, id: OpId :: IsPath(succs, entries, path) && path[|path| - 1] in exits ==>
      && (LeftWritten(Trace(body, path), i, p, id) ==> (p, id) in dangling.stores)
      && (LeftRead(Trace(body, path), i, p, id) ==> (p, id) in dangling.loads)
  }

  lemma ExitsReported(filter: Filter, succs: Cfg, entries: seq<nat>, st: State, exits: seq<nat>, dangling: BlockInfo)
    requires Invariant(filter, succs, entries, st) && st.worklist == [] && |st.body| == |succs|
    requires forall b :: b in exits ==> Get(st.output, b).Within(dangling)
    ensures Reported(succs, entries, st.body, exits, dangling)
  {
    hide Invariant, Trace, Flow, Clean, Conflicts, LeftWritten, LeftRead;
    forall path, i: nat, p, id: OpId | IsPath(succs, entries, path) && path[|path| - 1] in exits
      ensures LeftWritten(Trace(st.body, path), i, p, id) ==> (p, id) in dangling.stores
      ensures LeftRead(Trace(st.body, path), i, p, id) ==> (p, id) in dangling.loads
    {
      PathsAreClean(filter, succs, entries, st, path);
      PendingIff(Trace(st.body, path), p, id);
    }
  }
}
