/** Shared memory barrier insertion (lib/Analysis/Membar.cpp).

One function body, as a flat control flow graph: block b holds the operations `body[b]`
before its terminator and may branch to any block in `succs[b]`. */
module Membar {
  import opened MembarSpec

  // ---------- update ----------

  // An async wait that no barrier follows.
  predicate Unfenced(x: Instr, rest: seq<Instr>) {
    x.op.AsyncWait? && !(rest != [] && rest[0].op.Barrier?)
  }

  // The operations `update` leaves in place of x.
  function Emit(filter: Filter, x: Instr, rest: seq<Instr>, info: BlockInfo): seq<Instr> {
    if Unfenced(x, rest) then [x, BARRIER]
    else if !x.op.Barrier? && Conflicts(filter, info, First(x)) then [BARRIER, x]
    else [x]
  }

  // A block after one visit that starts from `info`, and what it leaves pending.
  function Rewrite(filter: Filter, body: seq<Instr>, info: BlockInfo): (r: seq<Instr>)
    ensures |r| >= |body|
  {
    if body == [] then []
    else
      var e := Emit(filter, body[0], body[1..], info);
      e + Rewrite(filter, body[1..], Flow(e, info))
  }

  // What a visit makes of a block whose first operation is x.
  lemma RewriteStep(filter: Filter, x: Instr, rest: seq<Instr>, info: BlockInfo)
    ensures var e := Emit(filter, x, rest, info);
            var r := Rewrite(filter, rest, Flow(e, info));
            && Rewrite(filter, [x] + rest, info) == e + r
            && Flow(e + r, info) == Flow(r, Flow(e, info))
  {
    hide Conflicts, First, Emit, Flow;
    var e := Emit(filter, x, rest, info);
    assert ([x] + rest)[1..] == rest;
    FlowAppend(e, Rewrite(filter, rest, Flow(e, info)), info);
  }

  /** A visited block starts no conflicting access. */
  lemma {:induction false} RewriteIsClean(filter: Filter, body: seq<Instr>, info: BlockInfo)
    ensures Clean(filter, Rewrite(filter, body, info), info)
  {
    hide Conflicts, First, Pass;
    if body != [] {
      var e := Emit(filter, body[0], body[1..], info);
      EmitIsClean(filter, body[0], body[1..], info);
      RewriteIsClean(filter, body[1..], Flow(e, info));
      CleanAppend(filter, e, Rewrite(filter, body[1..], Flow(e, info)), info);
    }
  }

  lemma EmitIsClean(filter: Filter, x: Instr, rest: seq<Instr>, info: BlockInfo)
    ensures Clean(filter, Emit(filter, x, rest, info), info)
  {
    hide Conflicts;
    NothingConflicts(filter, First(x));
    NothingConflicts(filter, info);
    if Unfenced(x, rest) {
      NothingConflicts(filter, Pass(x, info));
      CleanPair(filter, x, BARRIER, info);
    } else if !x.op.Barrier? && Conflicts(filter, info, First(x)) {
      CleanPair(filter, BARRIER, x, info);
    } else {
      CleanOne(filter, x, info);
    }
  }

  lemma CleanOne(filter: Filter, x: Instr, info: BlockInfo)
    ensures Clean(filter, [x], info) <==> !Conflicts(filter, info, First(x))
    ensures Flow([x], info) == Pass(x, info)
  {
    assert |[x][1..]| == 0;
  }

  lemma CleanPair(filter: Filter, x: Instr, y: Instr, info: BlockInfo)
    ensures Clean(filter, [x, y], info) <==> !Conflicts(filter, info, First(x)) && !Conflicts(filter, Pass(x, info), First(y))
    ensures Flow([x, y], info) == Pass(y, Pass(x, info))
  {
    assert [x, y][1..] == [y];
    CleanOne(filter, y, Pass(x, info));
  }

  ghost predicate WaitsFenced(body: seq<Instr>) {
    body == [] || (!Unfenced(body[0], body[1..]) && WaitsFenced(body[1..]))
  }

  /** Barriers go only where they are missing: a visit leaves a block unchanged exactly when no
      access conflicts and a barrier follows every async wait. */
  lemma {:induction false} UnchangedIff(filter: Filter, body: seq<Instr>, info: BlockInfo)
    ensures |Rewrite(filter, body, info)| == |body| <==> Rewrite(filter, body, info) == body
    ensures Rewrite(filter, body, info) == body <==> Clean(filter, body, info) && WaitsFenced(body)
  {
    hide Conflicts, First, Pass;
    if body != [] {
      var x, rest := body[0], body[1..];
      var e := Emit(filter, x, rest, info);
      NothingConflicts(filter, info);
      FirstOfBarrier(x);
      CleanOne(filter, x, info);
      UnchangedIff(filter, rest, Flow(e, info));
      var r := Rewrite(filter, rest, Flow(e, info));
      assert body == [x] + rest;
      if |e| == 1 {
        assert e + r == [x] + r && (e + r)[1..] == r;
      }
    }
  }

  lemma FirstOfBarrier(x: Instr)
    ensures x.op.Barrier? ==> First(x) == EMPTY
  {
  }

  // `after` is `before` with barriers inserted.
  ghost predicate Extends(before: seq<Instr>, after: seq<Instr>) {
    if after == [] then before == []
    else
      || (before != [] && before[0] == after[0] && Extends(before[1..], after[1..]))
      || (after[0] == BARRIER && Extends(before, after[1..]))
  }

  lemma {:induction false} ExtendsItself(t: seq<Instr>)
    ensures Extends(t, t)
  {
    if t != [] {
      ExtendsItself(t[1..]);
    }
  }

  /** Visiting a block only ever inserts barriers. */
  lemma {:induction false} RewriteExtends(filter: Filter, before: seq<Instr>, body: seq<Instr>, info: BlockInfo)
    requires Extends(before, body)
    ensures Extends(before, Rewrite(filter, body, info))
    decreases |body|
  {
    if body != [] {
      hide Conflicts, First, Pass, Flow;
      var x, rest := body[0], body[1..];
      var e := Emit(filter, x, rest, info);
      var r := Rewrite(filter, rest, Flow(e, info));
      if before != [] && before[0] == x && Extends(before[1..], rest) {
        RewriteExtends(filter, before[1..], rest, Flow(e, info));
        ExtendsEmit(before, x, e, r);
      } else {
        RewriteExtends(filter, before, rest, Flow(e, info));
        ExtendsEmit([x] + before, x, e, r) by {
          assert ([x] + before)[1..] == before;
        }
        ExtendsDropBarrier(before, e + r);
      }
    }
  }

  lemma ExtendsEmit(before: seq<Instr>, x: Instr, e: seq<Instr>, r: seq<Instr>)
    requires before != [] && before[0] == x && Extends(before[1..], r)
    requires e == [x] || e == [BARRIER, x] || e == [x, BARRIER]
    ensures Extends(before, e + r)
  {
    if e == [x] {
      assert (e + r)[1..] == r;
    } else {
      assert e[1..] == [e[1]];
      assert (e + r)[1..] == [e[1]] + r && ([e[1]] + r)[1..] == r;
    }
  }

  lemma {:induction false} ExtendsDropBarrier(before: seq<Instr>, after: seq<Instr>)
    requires Extends([BARRIER] + before, after)
    ensures Extends(before, after)
    decreases |after|
  {
    var b := [BARRIER] + before;
    assert b[1..] == before && b[0] == BARRIER;
    if after[0] == BARRIER && Extends(b, after[1..]) {
      ExtendsDropBarrier(before, after[1..]);
    }
  }
}
