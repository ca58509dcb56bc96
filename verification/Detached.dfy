/** Detached nodes: brought up to date once a tick, calling only what changed. */
module Detached {
  import opened Integers
  import opened Digraphs
  import opened Graphs
  import opened Expressions
  import opened Sorting

  // `Scratch` is the reference: what a node gives when it and everything it
  // reads are computed anew.  Each node reads the cells no detached node
  // writes as they stood when it was brought up to date, which `seen` keeps.

  /** A detached node as lowered: its function, which the index may not have,
      its arguments, and its return's cell and key. */
  datatype DetachedNode = DetachedNode(
    function_: Uuid,
    known: bool,
    arguments: seq<Argument>,
    out: Cell,
    optional: bool,
    publish: Option<string>)

  datatype Wiring = Wiring(host: Host, nodes: seq<DetachedNode>, inputs: Inputs, order: seq<nat>)

  predicate IsOut(w: Wiring, cell: Cell) {
    exists j :: 0 <= j < |w.nodes| && w.nodes[j].out == cell
  }

  /** Every node's return has a cell of its own, and a node's inputs are all
      the nodes whose cells its arguments read. */
  ghost predicate Wired(w: Wiring) {
    && |w.inputs| == |w.nodes| && InRange(w.inputs) && IsOrder(w.inputs, w.order)
    && (forall i :: 0 <= i < |w.nodes| ==> w.nodes[i].out.Local?)
    && (forall i, j :: 0 <= i < j < |w.nodes| ==> w.nodes[i].out != w.nodes[j].out)
    && (forall i, j :: 0 <= i < |w.nodes| && 0 <= j < |w.nodes| && w.nodes[j].out in ArgumentCells(w.nodes[i].arguments)
          ==> j in w.inputs[i])
  }

  ghost function Rank(w: Wiring, n: nat): (rank: nat)
    requires Wired(w) && n < |w.nodes|
    ensures rank < |w.order| && w.order[rank] == n
  {
    assert n in w.order;
    var rank :| 0 <= rank < |w.order| && w.order[rank] == n;
    rank
  }

  /** What a node reads comes before it. */
  lemma InputsRankLower(w: Wiring, n: nat, j: nat)
    requires Wired(w) && n < |w.nodes| && j in w.inputs[n]
    ensures j < |w.nodes| && Rank(w, j) < Rank(w, n)
  {
    var at := Rank(w, n);
    assert j in Next(InputEdges(w.inputs), w.order[at]);
    var i :| 0 <= i < at && w.order[..at][i] == j;
    assert w.order[i] == j == w.order[Rank(w, j)];
  }

  // From scratch.

  type Seen = seq<Memory>

  /** What a node gives, computed anew with everything it reads. */
  ghost function Scratch(w: Wiring, seen: Seen, n: nat): Outcome
    requires Wired(w) && |seen| == |w.nodes| && n < |w.nodes|
    decreases Rank(w, n), |w.inputs[n]| + 1
  {
    if exists k :: 0 <= k < |w.inputs[n]| && ScratchInput(w, seen, n, k).Failed? then Failed
    else
      var passed := PassedAll(w.host, w.nodes[n].arguments, View(w, seen, n, |w.inputs[n]|));
      if passed.AnyFailed? || !w.nodes[n].known then Failed
      else w.host.call(w.nodes[n].function_, passed.values)
  }

  ghost function ScratchInput(w: Wiring, seen: Seen, n: nat, k: nat): Outcome
    requires Wired(w) && |seen| == |w.nodes| && n < |w.nodes| && k < |w.inputs[n]|
    decreases Rank(w, n), 0
  {
    InputsRankLower(w, n, w.inputs[n][k]);
    Scratch(w, seen, w.inputs[n][k])
  }

  /** The cells as `n` finds them, its first `k` inputs computed anew. */
  ghost function View(w: Wiring, seen: Seen, n: nat, k: nat): Memory
    requires Wired(w) && |seen| == |w.nodes| && n < |w.nodes| && k <= |w.inputs[n]|
    decreases Rank(w, n), k
  {
    if k == 0 then seen[n]
    else
      var before := View(w, seen, n, k - 1);
      var input := ScratchInput(w, seen, n, k - 1);
      var j := w.inputs[n][k - 1];
      assert j in w.inputs[n];
      if input.Failed? then before
      else Holding(before, w.nodes[j].out, WrittenBack(input.value, w.nodes[j].optional))
  }

  ghost predicate InputFails(w: Wiring, seen: Seen, n: nat)
    requires Wired(w) && |seen| == |w.nodes| && n < |w.nodes|
  {
    exists k :: 0 <= k < |w.inputs[n]| && ScratchInput(w, seen, n, k).Failed?
  }

  /** No input writes a cell that is no node's. */
  lemma {:induction false} ViewOfOutside(w: Wiring, seen: Seen, n: nat, k: nat, cell: Cell)
    requires Wired(w) && |seen| == |w.nodes| && n < |w.nodes| && k <= |w.inputs[n]| && !IsOut(w, cell)
    ensures Held(View(w, seen, n, k), cell) == Held(seen[n], cell)
    decreases k
  {
    if k > 0 {
      ViewOfOutside(w, seen, n, k - 1, cell);
      assert w.inputs[n][k - 1] in w.inputs[n];
    }
  }

  /** An input's cell holds what it gives. */
  lemma {:induction false} ViewOfInput(w: Wiring, seen: Seen, n: nat, k: nat, i: nat)
    requires Wired(w) && |seen| == |w.nodes| && n < |w.nodes| && i < k <= |w.inputs[n]|
    requires !InputFails(w, seen, n)
    ensures w.inputs[n][i] < |w.nodes| && ScratchInput(w, seen, n, i).Gives?
    ensures var j := w.nodes[w.inputs[n][i]];
            Held(View(w, seen, n, k), j.out) == WrittenBack(ScratchInput(w, seen, n, i).value, j.optional)
    decreases k
  {
    assert w.inputs[n][i] in w.inputs[n] && w.inputs[n][k - 1] in w.inputs[n];
    assert !ScratchInput(w, seen, n, i).Failed? && !ScratchInput(w, seen, n, k - 1).Failed?;
    if i < k - 1 {
      ViewOfInput(w, seen, n, k - 1, i);
      if w.inputs[n][i] == w.inputs[n][k - 1] {
        assert ScratchInput(w, seen, n, i) == ScratchInput(w, seen, n, k - 1);
      }
    }
  }

  lemma {:induction false} ViewSame(w: Wiring, a: Seen, b: Seen, n: nat, k: nat)
    requires Wired(w) && |a| == |b| == |w.nodes| && n < |w.nodes| && k <= |w.inputs[n]| && a[n] == b[n]
    requires forall i :: 0 <= i < k ==> ScratchInput(w, a, n, i) == ScratchInput(w, b, n, i)
    ensures View(w, a, n, k) == View(w, b, n, k)
    decreases k
  {
    if k > 0 {
      ViewSame(w, a, b, n, k - 1);
    }
  }

  lemma ScratchSame(w: Wiring, a: Seen, b: Seen, n: nat)
    requires Wired(w) && |a| == |b| == |w.nodes| && n < |w.nodes| && a[n] == b[n]
    requires forall i :: 0 <= i < |w.inputs[n]| ==> ScratchInput(w, a, n, i) == ScratchInput(w, b, n, i)
    ensures Scratch(w, a, n) == Scratch(w, b, n)
    ensures View(w, a, n, |w.inputs[n]|) == View(w, b, n, |w.inputs[n]|)
  {
    ViewSame(w, a, b, n, |w.inputs[n]|);
  }

  /** What a cell holds for `n`: what the input whose it is wrote back, or what
      `n` found there. */
  ghost predicate Finds(w: Wiring, seen: Seen, n: nat, cell: Cell, held: Option<Value>)
    requires Wired(w) && |seen| == |w.nodes| && n < |w.nodes|
  {
    if IsOut(w, cell) then
      exists k :: 0 <= k < |w.inputs[n]| && w.inputs[n][k] < |w.nodes| && w.nodes[w.inputs[n][k]].out == cell
                  && ScratchInput(w, seen, n, k).Gives?
                  && held == WrittenBack(ScratchInput(w, seen, n, k).value, w.nodes[w.inputs[n][k]].optional)
    else held == if cell in seen[n] then Some(seen[n][cell]) else None
  }

  /** An argument that reads a cell takes what it holds, a plain parameter as it
      is and an optional one as an option. */
  ghost predicate Takes(w: Wiring, seen: Seen, n: nat, i: nat, value: Value)
    requires Wired(w) && |seen| == |w.nodes| && n < |w.nodes| && i < |w.nodes[n].arguments|
  {
    var a := w.nodes[n].arguments[i];
    a.source.FromCell? && a.source.cell.Some? &&
    exists held ::
      && Finds(w, seen, n, a.source.cell.value, held)
      && (held.Some? && !a.optional ==> value == held.value)
      && (held.Some? && a.optional ==>
            value == if held.value.Present? || held.value.Absent? then held.value else Present(held.value))
      && (held.None? ==> value == if a.optional then Absent else Unit)
  }

  /** A node whose arguments read cells gives what its function gives for what
      they hold: what its inputs gave, and what else it found. */
  lemma CallTakesCells(w: Wiring, seen: Seen, n: nat, values: seq<Value>)
    requires Wired(w) && |seen| == |w.nodes| && n < |w.nodes| && w.nodes[n].known && !InputFails(w, seen, n)
    requires |values| == |w.nodes[n].arguments|
    requires forall i :: 0 <= i < |values| ==> Takes(w, seen, n, i, values[i])
    ensures Scratch(w, seen, n) == w.host.call(w.nodes[n].function_, values)
  {
    hide Scratch, View, ScratchInput, IsOut;
    var view := View(w, seen, n, |w.inputs[n]|);
    PassedEach(w.host, w.nodes[n].arguments, view, values);
    forall i | 0 <= i < |values| ensures PassedBy(w.host, w.nodes[n].arguments[i], view) == Gives(values[i]) {
      TakenIsPassed(w, seen, n, i, values[i]);
    }
    ScratchCalls(w, seen, n, values);
  }

  lemma TakenIsPassed(w: Wiring, seen: Seen, n: nat, i: nat, value: Value)
    requires Wired(w) && |seen| == |w.nodes| && n < |w.nodes| && !InputFails(w, seen, n)
    requires i < |w.nodes[n].arguments| && Takes(w, seen, n, i, value)
    ensures PassedBy(w.host, w.nodes[n].arguments[i], View(w, seen, n, |w.inputs[n]|)) == Gives(value)
  {
    hide Wired, Scratch, View, ScratchInput, Finds, InputFails;
    var a := w.nodes[n].arguments[i];
    var held :| Finds(w, seen, n, a.source.cell.value, held)
                && (held.Some? && !a.optional ==> value == held.value)
                && (held.Some? && a.optional ==>
                      value == if held.value.Present? || held.value.Absent? then held.value else Present(held.value))
                && (held.None? ==> value == if a.optional then Absent else Unit);
    FoundIsViewed(w, seen, n, a.source.cell.value, held);
  }

  lemma FoundIsViewed(w: Wiring, seen: Seen, n: nat, cell: Cell, held: Option<Value>)
    requires Wired(w) && |seen| == |w.nodes| && n < |w.nodes| && !InputFails(w, seen, n)
    requires Finds(w, seen, n, cell, held)
    ensures Held(View(w, seen, n, |w.inputs[n]|), cell) == held
  {
    hide Scratch, View, ScratchInput, InputFails;
    if IsOut(w, cell) {
      var k :| 0 <= k < |w.inputs[n]| && w.inputs[n][k] < |w.nodes| && w.nodes[w.inputs[n][k]].out == cell
               && ScratchInput(w, seen, n, k).Gives?
               && held == WrittenBack(ScratchInput(w, seen, n, k).value, w.nodes[w.inputs[n][k]].optional);
      ViewOfInput(w, seen, n, |w.inputs[n]|, k);
    } else {
      ViewOfOutside(w, seen, n, |w.inputs[n]|, cell);
    }
  }

  lemma ScratchCalls(w: Wiring, seen: Seen, n: nat, values: seq<Value>)
    requires Wired(w) && |seen| == |w.nodes| && n < |w.nodes| && w.nodes[n].known && !InputFails(w, seen, n)
    requires PassedAll(w.host, w.nodes[n].arguments, View(w, seen, n, |w.inputs[n]|)) == AllGive(values)
    ensures Scratch(w, seen, n) == w.host.call(w.nodes[n].function_, values)
  {
    hide PassedAll;
  }

  // What is kept of the last calls, and what is settled this tick.

  datatype Cache = Cache(tick: nat, arguments: Option<seq<Value>>, ret: Value, calls: nat, failed: bool)

  /** What the last successful call was passed, it gave, and its cell holds. */
  ghost predicate SoundAt(w: Wiring, m: Memory, n: nat, c: Cache)
    requires n < |w.nodes|
  {
    c.arguments.Some? ==>
      && w.nodes[n].known
      && w.host.call(w.nodes[n].function_, c.arguments.value) == Gives(c.ret)
      && Held(m, w.nodes[n].out) == WrittenBack(c.ret, w.nodes[n].optional)
  }

  ghost predicate Sound(w: Wiring, m: Memory, caches: seq<Cache>) {
    |caches| == |w.nodes| && forall n :: 0 <= n < |w.nodes| ==> SoundAt(w, m, n, caches[n])
  }

  predicate Current(c: Cache, tick: nat) { c.tick == tick }

  predicate Ready(c: Cache, tick: nat) { c.tick == tick && !c.failed }

  /** What `n` was passed at its last successful call is what it would be
      passed anew. */
  ghost predicate PassedAnew(w: Wiring, seen: Seen, n: nat, values: seq<Value>)
    requires Wired(w) && |seen| == |w.nodes| && n < |w.nodes|
  {
    PassedAll(w.host, w.nodes[n].arguments, View(w, seen, n, |w.inputs[n]|)) == AllGive(values)
  }

  ghost predicate AllInputs(w: Wiring, n: nat, caches: seq<Cache>, tick: nat)
    requires Wired(w) && |caches| == |w.nodes| && n < |w.nodes|
  {
    forall j :: j in w.inputs[n] ==> j < |caches| && Current(caches[j], tick)
  }

  ghost predicate AnInputFailed(w: Wiring, n: nat, caches: seq<Cache>, tick: nat)
    requires Wired(w) && |caches| == |w.nodes| && n < |w.nodes|
  {
    exists j :: j in w.inputs[n] && j < |caches| && Current(caches[j], tick) && caches[j].failed
  }

  /** A node up to date this tick gives what it gives from scratch. */
  ghost predicate SettledAt(w: Wiring, seen: Seen, caches: seq<Cache>, tick: nat, n: nat)
    requires Wired(w) && |seen| == |caches| == |w.nodes| && n < |w.nodes|
  {
    Current(caches[n], tick) ==>
      if caches[n].failed
      then Scratch(w, seen, n).Failed? && (AllInputs(w, n, caches, tick) || AnInputFailed(w, n, caches, tick))
      else
        && caches[n].arguments.Some?
        && Scratch(w, seen, n) == Gives(caches[n].ret)
        && PassedAnew(w, seen, n, caches[n].arguments.value)
        && AllInputs(w, n, caches, tick)
  }

  ghost predicate Settled(w: Wiring, seen: Seen, caches: seq<Cache>, tick: nat)
    requires Wired(w)
  {
    |seen| == |caches| == |w.nodes| && forall n :: 0 <= n < |w.nodes| ==> SettledAt(w, seen, caches, tick, n)
  }

  /** What nodes not up to date find leaves the others as they are. */
  lemma {:induction false} ScratchIsStable(w: Wiring, seen: Seen, other: Seen, caches: seq<Cache>, tick: nat, n: nat)
    requires Wired(w) && Settled(w, seen, caches, tick) && |other| == |seen|
    requires forall k :: 0 <= k < |seen| && Current(caches[k], tick) ==> other[k] == seen[k]
    requires n < |w.nodes| && Current(caches[n], tick)
    ensures Scratch(w, other, n) == Scratch(w, seen, n)
    ensures AllInputs(w, n, caches, tick) ==> View(w, other, n, |w.inputs[n]|) == View(w, seen, n, |w.inputs[n]|)
    decreases Rank(w, n)
  {
    assert SettledAt(w, seen, caches, tick, n);
    if AllInputs(w, n, caches, tick) {
      forall i | 0 <= i < |w.inputs[n]| ensures ScratchInput(w, seen, n, i) == ScratchInput(w, other, n, i) {
        var j := w.inputs[n][i];
        assert j in w.inputs[n];
        InputsRankLower(w, n, j);
        ScratchIsStable(w, seen, other, caches, tick, j);
      }
      ScratchSame(w, seen, other, n);
    } else {
      var j :| j in w.inputs[n] && j < |caches| && Current(caches[j], tick) && caches[j].failed;
      InputsRankLower(w, n, j);
      ScratchIsStable(w, seen, other, caches, tick, j);
      assert SettledAt(w, seen, caches, tick, j);
      var i :| 0 <= i < |w.inputs[n]| && w.inputs[n][i] == j;
      assert ScratchInput(w, other, n, i).Failed?;
    }
  }

  lemma SettledIsStable(w: Wiring, seen: Seen, caches: seq<Cache>, tick: nat, other: nat, m: Memory)
    requires Wired(w) && Settled(w, seen, caches, tick)
    requires other < |w.nodes| && !Current(caches[other], tick)
    ensures Settled(w, seen[other := m], caches, tick)
  {
    var b := seen[other := m];
    forall n | 0 <= n < |w.nodes| ensures SettledAt(w, b, caches, tick, n) {
      assert SettledAt(w, seen, caches, tick, n);
      if Current(caches[n], tick) {
        ScratchIsStable(w, seen, b, caches, tick, n);
      }
    }
  }

  /** With its inputs ready, a node finds in the cells what it would find
      computing them anew. */
  lemma CellsHoldTheView(w: Wiring, seen: Seen, caches: seq<Cache>, tick: nat, m: Memory, n: nat)
    requires Wired(w) && Settled(w, seen, caches, tick) && Sound(w, m, caches)
    requires n < |w.nodes| && seen[n] == m
    requires forall j :: j in w.inputs[n] ==> j < |caches| && Ready(caches[j], tick)
    ensures !InputFails(w, seen, n)
    ensures PassedAll(w.host, w.nodes[n].arguments, View(w, seen, n, |w.inputs[n]|))
            == PassedAll(w.host, w.nodes[n].arguments, m)
  {
    forall i | 0 <= i < |w.inputs[n]| ensures ScratchInput(w, seen, n, i).Gives? {
      var j := w.inputs[n][i];
      assert j in w.inputs[n];
      assert SettledAt(w, seen, caches, tick, j);
    }
    var view := View(w, seen, n, |w.inputs[n]|);
    forall cell | cell in ArgumentCells(w.nodes[n].arguments) ensures Held(view, cell) == Held(m, cell) {
      if IsOut(w, cell) {
        var j :| 0 <= j < |w.nodes| && w.nodes[j].out == cell;
        assert j in w.inputs[n];
        var i :| 0 <= i < |w.inputs[n]| && w.inputs[n][i] == j;
        ViewOfInput(w, seen, n, |w.inputs[n]|, i);
        assert SettledAt(w, seen, caches, tick, j) && SoundAt(w, m, j, caches[j]);
      } else {
        ViewOfOutside(w, seen, n, |w.inputs[n]|, cell);
      }
    }
    PassedAgrees(w.host, w.nodes[n].arguments, view, m);
  }

  datatype Activity = Called | Cached | Idle

  /** Whether an evaluation passing `passed` calls the function. */
  predicate Calls(n: DetachedNode, c: Cache, passed: Outcomes) {
    passed.AllGive? && n.known && c.arguments != Some(passed.values)
  }

  /** The cache of a node not up to date settles nothing. */
  lemma CacheOfOther(w: Wiring, seen: Seen, caches: seq<Cache>, tick: nat, at: nat, c: Cache)
    requires Wired(w) && Settled(w, seen, caches, tick)
    requires at < |w.nodes| && !Current(caches[at], tick) && c.tick == caches[at].tick
    ensures Settled(w, seen, caches[at := c], tick)
  {
    var after := caches[at := c];
    forall n | 0 <= n < |w.nodes| ensures SettledAt(w, seen, after, tick, n) {
      assert SettledAt(w, seen, caches, tick, n);
      assert forall j :: 0 <= j < |caches| ==> Current(after[j], tick) == Current(caches[j], tick);
      assert AllInputs(w, n, caches, tick) ==> AllInputs(w, n, after, tick);
      if AnInputFailed(w, n, caches, tick) {
        var j :| j in w.inputs[n] && j < |caches| && Current(caches[j], tick) && caches[j].failed;
        assert after[j] == caches[j];
      }
    }
  }

  lemma SoundAfterCall(w: Wiring, m: Memory, caches: seq<Cache>, at: nat, c: Cache)
    requires Wired(w) && Sound(w, m, caches) && at < |w.nodes|
    requires c.arguments.Some? && w.nodes[at].known
    requires w.host.call(w.nodes[at].function_, c.arguments.value) == Gives(c.ret)
    ensures Sound(w, Holding(m, w.nodes[at].out, WrittenBack(c.ret, w.nodes[at].optional)), caches[at := c])
  {
    var after, now := caches[at := c], Holding(m, w.nodes[at].out, WrittenBack(c.ret, w.nodes[at].optional));
    forall n | 0 <= n < |w.nodes| ensures SoundAt(w, now, n, after[n]) {
      assert SoundAt(w, m, n, caches[n]);
      if n != at {
        assert w.nodes[n].out != w.nodes[at].out;
      }
    }
  }

  /** A failure on the path fails every node waiting on it. */
  lemma {:induction false} WaitingFail(w: Wiring, seen: Seen, stack: seq<(nat, nat)>, i: nat)
    requires Wired(w) && |seen| == |w.nodes| && IsPath(InputEdges(w.inputs), stack) && i < |stack|
    requires forall k :: 0 <= k < |stack| ==> stack[k].0 < |w.nodes|
    requires Scratch(w, seen, stack[|stack| - 1].0).Failed?
    ensures Scratch(w, seen, stack[i].0).Failed?
    decreases |stack| - i
  {
    if i < |stack| - 1 {
      WaitingFail(w, seen, stack, i + 1);
      assert Linked(InputEdges(w.inputs), stack[i], stack[i + 1].0);
      assert ScratchInput(w, seen, stack[i].0, stack[i].1 - 1).Failed?;
    }
  }

  /** Failed with what they wait on, the nodes on the path are settled. */
  lemma FailureSettles(w: Wiring, seen: Seen, caches: seq<Cache>, tick: nat, stack: seq<(nat, nat)>, after: seq<Cache>)
    requires Wired(w) && Settled(w, seen, caches, tick) && IsPath(InputEdges(w.inputs), stack) && stack != []
    requires forall k :: 0 <= k < |stack| ==> stack[k].0 < |w.nodes| && !Current(caches[stack[k].0], tick)
    requires var top := stack[|stack| - 1].0;
             Scratch(w, seen, top).Failed? && (AllInputs(w, top, caches, tick) || AnInputFailed(w, top, caches, tick))
    requires |after| == |caches|
    requires forall n :: 0 <= n < |w.nodes| ==>
               after[n] == if n in OnPath(stack) then caches[n].(tick := tick, failed := true) else caches[n]
    ensures Settled(w, seen, after, tick)
  {
    hide Scratch, ScratchInput, View, PassedAnew, Rank, PassedAll, IsOrder;
    forall n | 0 <= n < |w.nodes| ensures SettledAt(w, seen, after, tick, n) {
      assert SettledAt(w, seen, caches, tick, n);
      if AnInputFailed(w, n, caches, tick) {
        var j :| j in w.inputs[n] && j < |caches| && Current(caches[j], tick) && caches[j].failed;
        assert after[j] == caches[j];
      }
      if n in OnPath(stack) {
        var i :| 0 <= i < |stack| && stack[i].0 == n;
        WaitingFail(w, seen, stack, i);
        if i < |stack| - 1 {
          assert Linked(InputEdges(w.inputs), stack[i], stack[i + 1].0);
          assert stack[i + 1].0 in OnPath(stack) && stack[i + 1].0 in w.inputs[n];
        }
      }
    }
  }

  /** A node evaluated without failing is settled. */
  lemma SuccessSettles(w: Wiring, seen: Seen, caches: seq<Cache>, tick: nat, at: nat)
    requires Wired(w) && Settled(w, seen, caches, tick) && at < |w.nodes| && !Current(caches[at], tick)
    requires caches[at].arguments.Some? && Scratch(w, seen, at) == Gives(caches[at].ret)
    requires PassedAnew(w, seen, at, caches[at].arguments.value) && AllInputs(w, at, caches, tick)
    ensures Settled(w, seen, caches[at := caches[at].(tick := tick, failed := false)], tick)
  {
    var after := caches[at := caches[at].(tick := tick, failed := false)];
    forall n | 0 <= n < |w.nodes| ensures SettledAt(w, seen, after, tick, n) {
      assert SettledAt(w, seen, caches, tick, n);
      if AnInputFailed(w, n, caches, tick) {
        var j :| j in w.inputs[n] && j < |caches| && Current(caches[j], tick) && caches[j].failed;
        assert after[j] == caches[j];
      }
    }
  }

  /** What a node's evaluation since `start` did to its calls. */
  ghost predicate CallRightAt(w: Wiring, seen: Seen, start: seq<Cache>, caches: seq<Cache>, anew: bool, n: nat)
    requires Wired(w) && |seen| == |start| == |caches| == |w.nodes| && n < |w.nodes|
  {
    if anew then
      var passed := PassedAll(w.host, w.nodes[n].arguments, View(w, seen, n, |w.inputs[n]|));
      caches[n].calls == start[n].calls + if Calls(w.nodes[n], start[n], passed) then 1 else 0
    else caches[n].calls == start[n].calls && caches[n].arguments == start[n].arguments
  }

  /** Since `start` each node was called at most once, and only where it was
      evaluated with other arguments than at its last successful call. */
  ghost predicate CallsRight(w: Wiring, seen: Seen, start: seq<Cache>, caches: seq<Cache>, anew: set<nat>)
    requires Wired(w)
  {
    && |seen| == |start| == |caches| == |w.nodes|
    && forall n :: 0 <= n < |w.nodes| ==> CallRightAt(w, seen, start, caches, n in anew, n)
  }

  /** One more evaluation keeps the calls right. */
  lemma CallsStayRight(w: Wiring, seen: Seen, start: seq<Cache>, before: seq<Cache>, caches: seq<Cache>, tick: nat,
                       anew: set<nat>, at: nat, m: Memory)
    requires Wired(w) && Settled(w, seen, before, tick) && CallsRight(w, seen, start, before, anew)
    requires at < |w.nodes| && at !in anew && !Current(before[at], tick)
    requires forall n :: n in anew ==> n < |before| && Ready(before[n], tick)
    requires |caches| == |before| && forall n :: 0 <= n < |before| && n != at ==> caches[n] == before[n]
    requires var b := seen[at := m];
             caches[at].calls == before[at].calls
             + if Calls(w.nodes[at], before[at], PassedAll(w.host, w.nodes[at].arguments,
                                                           View(w, b, at, |w.inputs[at]|)))
               then 1 else 0
    ensures CallsRight(w, seen[at := m], start, caches, anew + {at})
  {
    var b := seen[at := m];
    forall n | 0 <= n < |w.nodes| ensures CallRightAt(w, b, start, caches, n in anew + {at}, n) {
      assert CallRightAt(w, seen, start, before, n in anew, n);
      if n in anew {
        assert SettledAt(w, seen, before, tick, n);
        ScratchIsStable(w, seen, b, before, tick, n);
      }
    }
  }

  /** The nodes waiting on the stack, none up to date, each for the read it
      looks at, those before it up to date. */
  ghost predicate Waiting(w: Wiring, caches: seq<Cache>, tick: nat, stack: seq<(nat, nat)>)
    requires Wired(w) && |caches| == |w.nodes|
  {
    && IsPath(InputEdges(w.inputs), stack)
    && (forall i :: 0 <= i < |stack| ==> stack[i].0 < |w.nodes| && !Current(caches[stack[i].0], tick))
    && (forall i, k :: 0 <= i < |stack| && 0 <= k < Looked(stack, i) && k < |w.inputs[stack[i].0]| ==>
          LooksReady(w, caches, tick, stack[i].0, k))
    && (forall i, j :: 0 <= i < j < |stack| ==> Rank(w, stack[j].0) < Rank(w, stack[i].0))
  }

  lemma WaitingPasses(w: Wiring, caches: seq<Cache>, tick: nat, stack: seq<(nat, nat)>, n: nat, next: nat)
    requires Wired(w) && |caches| == |w.nodes| && Waiting(w, caches, tick, stack) && stack != []
    requires stack[|stack| - 1] == (n, next)
    requires n < |w.nodes| && next < |w.inputs[n]| && LooksReady(w, caches, tick, n, next)
    ensures Waiting(w, caches, tick, stack[|stack| - 1 := (n, next + 1)])
  {
    var on := stack[|stack| - 1 := (n, next + 1)];
    PathPasses(InputEdges(w.inputs), stack, n, next);
    assert forall i :: 0 <= i < |stack| ==> on[i].0 == stack[i].0;
    forall i, k | 0 <= i < |on| && 0 <= k < Looked(on, i) && k < |w.inputs[on[i].0]|
      ensures LooksReady(w, caches, tick, on[i].0, k)
    {
      if i < |stack| - 1 || k < next {
        assert k < Looked(stack, i) && LooksReady(w, caches, tick, stack[i].0, k);
      }
    }
  }

  lemma WaitingDescends(w: Wiring, caches: seq<Cache>, tick: nat, stack: seq<(nat, nat)>, n: nat, next: nat)
    requires Wired(w) && |caches| == |w.nodes| && Waiting(w, caches, tick, stack) && stack != []
    requires stack[|stack| - 1] == (n, next)
    requires n < |w.nodes| && next < |w.inputs[n]|
    requires w.inputs[n][next] < |caches| && !Current(caches[w.inputs[n][next]], tick)
    ensures Waiting(w, caches, tick, stack[|stack| - 1 := (n, next + 1)] + [(w.inputs[n][next], 0)])
  {
    var read := w.inputs[n][next];
    var on := stack[|stack| - 1 := (n, next + 1)] + [(read, 0)];
    PathPasses(InputEdges(w.inputs), stack, n, next);
    assert read in w.inputs[n];
    InputsRankLower(w, n, read);
    assert forall i :: 0 <= i < |stack| ==> on[i].0 == stack[i].0;
    forall i, k | 0 <= i < |on| && 0 <= k < Looked(on, i) && k < |w.inputs[on[i].0]|
      ensures LooksReady(w, caches, tick, on[i].0, k)
    {
      assert k < Looked(stack, i) && LooksReady(w, caches, tick, stack[i].0, k);
    }
    forall i, j | 0 <= i < j < |on| ensures Rank(w, on[j].0) < Rank(w, on[i].0) {
      if j == |stack| && i < |stack| - 1 {
        assert Rank(w, stack[|stack| - 1].0) < Rank(w, stack[i].0);
      }
    }
  }

  /** With every input looked at, the top waits for nothing. */
  lemma TopIsReady(w: Wiring, caches: seq<Cache>, tick: nat, stack: seq<(nat, nat)>, n: nat)
    requires Wired(w) && |caches| == |w.nodes| && Waiting(w, caches, tick, stack) && stack != []
    requires n < |w.nodes| && stack[|stack| - 1] == (n, |w.inputs[n]|)
    ensures forall j :: j in w.inputs[n] ==> j < |caches| && Ready(caches[j], tick)
  {
    forall j | j in w.inputs[n] ensures j < |caches| && Ready(caches[j], tick) {
      var k :| 0 <= k < |w.inputs[n]| && w.inputs[n][k] == j;
      assert k < Looked(stack, |stack| - 1) && LooksReady(w, caches, tick, stack[|stack| - 1].0, k);
    }
  }

  ghost predicate LooksReady(w: Wiring, caches: seq<Cache>, tick: nat, n: nat, k: nat)
    requires Wired(w) && |caches| == |w.nodes| && n < |w.nodes| && k < |w.inputs[n]|
  {
    w.inputs[n][k] < |caches| && Ready(caches[w.inputs[n][k]], tick)
  }

  /** The top evaluated and marked, those under it wait on. */
  lemma WaitingLeaves(w: Wiring, before: seq<Cache>, after: seq<Cache>, tick: nat, stack: seq<(nat, nat)>, n: nat)
    requires Wired(w) && |before| == |after| == |w.nodes| && Waiting(w, before, tick, stack) && stack != []
    requires n < |w.nodes| && stack[|stack| - 1].0 == n && Ready(after[n], tick)
    requires forall k :: 0 <= k < |w.nodes| && k != n ==> after[k] == before[k]
    ensures Waiting(w, after, tick, stack[..|stack| - 1])
    ensures Pending(w, after, tick) < Pending(w, before, tick)
  {
    var top := |stack| - 1;
    var rest := stack[..top];
    assert n in Pending(w, before, tick) && n !in Pending(w, after, tick);
    forall i | 0 <= i < |rest| ensures rest[i].0 < |w.nodes| && !Current(after[rest[i].0], tick) {
      assert Rank(w, stack[top].0) < Rank(w, stack[i].0);
    }
    forall i, k | 0 <= i < |rest| && 0 <= k < Looked(rest, i) && k < |w.inputs[rest[i].0]|
      ensures LooksReady(w, after, tick, rest[i].0, k)
    {
      if k < Looked(stack, i) {
        assert LooksReady(w, before, tick, stack[i].0, k);
      } else {
        assert i + 1 == top && Linked(InputEdges(w.inputs), stack[i], stack[top].0);
      }
    }
  }

  lemma StillWaiting(w: Wiring, before: seq<Cache>, after: seq<Cache>, tick: nat, stack: seq<(nat, nat)>, n: nat)
    requires Wired(w) && |before| == |after| == |w.nodes| && Waiting(w, before, tick, stack)
    requires n < |w.nodes| && !Current(before[n], tick) && after[n].tick == before[n].tick
    requires forall k :: 0 <= k < |w.nodes| && k != n ==> after[k] == before[k]
    ensures Waiting(w, after, tick, stack)
  {
    forall i, k | 0 <= i < |stack| && 0 <= k < Looked(stack, i) && k < |w.inputs[stack[i].0]|
      ensures LooksReady(w, after, tick, stack[i].0, k)
    {
      assert LooksReady(w, before, tick, stack[i].0, k);
    }
  }

  /** A node up to date was evaluated, or failed with an input. */
  ghost predicate AccountedAt(w: Wiring, caches: seq<Cache>, tick: nat, evaluated: seq<nat>, n: nat)
    requires Wired(w) && |caches| == |w.nodes| && n < |w.nodes|
  {
    Current(caches[n], tick) ==> n in evaluated || (caches[n].failed && AnInputFailed(w, n, caches, tick))
  }

  ghost predicate Accounted(w: Wiring, caches: seq<Cache>, tick: nat, evaluated: seq<nat>)
    requires Wired(w) && |caches| == |w.nodes|
  {
    forall n :: 0 <= n < |w.nodes| ==> AccountedAt(w, caches, tick, evaluated, n)
  }

  lemma AccountedOnceMore(w: Wiring, before: seq<Cache>, after: seq<Cache>, tick: nat, evaluated: seq<nat>, at: nat)
    requires Wired(w) && |before| == |after| == |w.nodes| && Accounted(w, before, tick, evaluated)
    requires at < |w.nodes| && !Current(before[at], tick)
    requires forall k :: 0 <= k < |w.nodes| && k != at ==> after[k] == before[k]
    ensures Accounted(w, after, tick, evaluated + [at])
  {
    forall n | 0 <= n < |w.nodes| ensures AccountedAt(w, after, tick, evaluated + [at], n) {
      assert AccountedAt(w, before, tick, evaluated, n);
      if n != at && AnInputFailed(w, n, before, tick) {
        var j :| j in w.inputs[n] && j < |before| && Current(before[j], tick) && before[j].failed;
        assert after[j] == before[j];
      }
    }
  }

  lemma AccountedAfterFailure(w: Wiring, caches: seq<Cache>, after: seq<Cache>, tick: nat, evaluated: seq<nat>,
                              stack: seq<(nat, nat)>)
    requires Wired(w) && |after| == |caches| == |w.nodes| && Accounted(w, caches, tick, evaluated)
    requires Waiting(w, caches, tick, stack) && stack != []
    requires stack[|stack| - 1].0 in evaluated || AnInputFailed(w, stack[|stack| - 1].0, caches, tick)
    requires forall n :: 0 <= n < |w.nodes| ==>
               after[n] == if n in OnPath(stack) then caches[n].(tick := tick, failed := true) else caches[n]
    ensures Accounted(w, after, tick, evaluated)
  {
    forall n | 0 <= n < |w.nodes| ensures AccountedAt(w, after, tick, evaluated, n) {
      assert AccountedAt(w, caches, tick, evaluated, n);
      if AnInputFailed(w, n, caches, tick) {
        var j :| j in w.inputs[n] && j < |caches| && Current(caches[j], tick) && caches[j].failed;
        assert after[j] == caches[j];
      }
      if n in OnPath(stack) {
        var i :| 0 <= i < |stack| && stack[i].0 == n;
        if i < |stack| - 1 {
          assert Linked(InputEdges(w.inputs), stack[i], stack[i + 1].0);
          assert stack[i + 1].0 in OnPath(stack) && stack[i + 1].0 in w.inputs[n];
        }
      }
    }
  }

  ghost function Pending(w: Wiring, caches: seq<Cache>, tick: nat): set<nat> {
    set n | 0 <= n < |caches| && !Current(caches[n], tick)
  }

  /** How far the node the stack ends on is from being evaluated. */
  ghost function TopRank(w: Wiring, caches: seq<Cache>, tick: nat, stack: seq<(nat, nat)>): nat
    requires Wired(w) && |caches| == |w.nodes| && Waiting(w, caches, tick, stack)
  {
    if stack == [] then 0 else Rank(w, stack[|stack| - 1].0)
  }

  ghost function TopLeft(w: Wiring, caches: seq<Cache>, tick: nat, stack: seq<(nat, nat)>): int
    requires Wired(w) && |caches| == |w.nodes| && Waiting(w, caches, tick, stack)
  {
    if stack == [] then 0 else |w.inputs[stack[|stack| - 1].0]| - stack[|stack| - 1].1
  }

  /** One turn of bringing up to date leaves less to do. */
  ghost predicate Nearer(w: Wiring, before: seq<Cache>, after: seq<Cache>, tick: nat, stack: seq<(nat, nat)>,
                         on: seq<(nat, nat)>)
    requires Wired(w) && |before| == |after| == |w.nodes| && Waiting(w, before, tick, stack)
    requires Waiting(w, after, tick, on)
  {
    var left, most := Pending(w, after, tick), Pending(w, before, tick);
    var rank, higher := TopRank(w, after, tick, on), TopRank(w, before, tick, stack);
    left < most
    || (left == most
        && (rank < higher
            || (rank == higher && TopLeft(w, after, tick, on) < TopLeft(w, before, tick, stack))))
  }

  lemma EvaluatedGrows(before: seq<nat>, evaluated: seq<nat>, longer: seq<nat>, n: nat)
    requires before <= evaluated && longer == evaluated + [n] && n !in evaluated
    ensures before <= longer
    ensures SetOf(longer) - SetOf(before) == SetOf(evaluated) - SetOf(before) + {n}
    ensures n !in SetOf(evaluated) - SetOf(before)
  {
    assert n !in before by {
      assert forall x :: x in before ==> x in evaluated;
    }
  }

  /** Only cells of the nodes' own differ. */
  ghost predicate SameOutside(w: Wiring, a: Memory, b: Memory) {
    forall cell :: !IsOut(w, cell) ==> Held(a, cell) == Held(b, cell)
  }

  /** A state to compare with later. */
  datatype Before = Before(caches: seq<Cache>, evaluated: seq<nat>, memory: Memory, seen: Seen)

  /** What was done from `b` to `now`: who was evaluated anew, with the cells
      no node writes as they stood, and called; and what stayed. */
  ghost predicate Followed(w: Wiring, tick: nat, b: Before, now: Before, anew: set<nat>)
    requires Wired(w)
  {
    && |b.caches| == |now.caches| == |b.seen| == |now.seen| == |w.nodes|
    && SameOutside(w, b.memory, now.memory) && CallsRight(w, now.seen, b.caches, now.caches, anew)
    && b.evaluated <= now.evaluated && anew == SetOf(now.evaluated) - SetOf(b.evaluated)
    && (forall n :: 0 <= n < |w.nodes| && Current(b.caches[n], tick) ==> now.caches[n] == b.caches[n])
    && (forall n :: 0 <= n < |w.nodes| ==>
          if n in anew then SameOutside(w, b.memory, now.seen[n]) && !Current(b.caches[n], tick)
          else now.seen[n] == b.seen[n])
  }

  /** The nodes, and everything they read at any depth. */
  ghost function ReadFor(w: Wiring, nodes: set<nat>): set<nat> {
    Reach(InputEdges(w.inputs), nodes)
  }

  /** What was evaluated from `before` to `after` is read for `nodes`. */
  ghost predicate OnlyReadFor(w: Wiring, before: seq<nat>, after: seq<nat>, nodes: set<nat>) {
    SetOf(after) - SetOf(before) <= ReadFor(w, nodes)
  }

  lemma ReadForMore(w: Wiring, a: seq<nat>, b: seq<nat>, c: seq<nat>, less: set<nat>, nodes: set<nat>)
    requires a <= b <= c && OnlyReadFor(w, a, b, nodes) && OnlyReadFor(w, b, c, less) && less <= nodes
    ensures OnlyReadFor(w, a, c, nodes)
  {
    PrefixesJoin(a, b, c);
    ReachGrows(InputEdges(w.inputs), less, nodes);
  }

  ghost predicate AllCurrent(caches: seq<Cache>, tick: nat, nodes: seq<nat>) {
    forall k :: 0 <= k < |nodes| ==> nodes[k] < |caches| && Current(caches[nodes[k]], tick)
  }

  ghost predicate AllReady(caches: seq<Cache>, tick: nat, nodes: seq<nat>) {
    forall k :: 0 <= k < |nodes| ==> nodes[k] < |caches| && Ready(caches[nodes[k]], tick)
  }

  lemma OneMoreCurrent(before: seq<Cache>, after: seq<Cache>, tick: nat, nodes: seq<nat>, i: nat)
    requires i < |nodes| && |before| == |after| && AllCurrent(before, tick, nodes[..i])
    requires forall n :: 0 <= n < |before| && Current(before[n], tick) ==> after[n] == before[n]
    requires nodes[i] < |after| && Current(after[nodes[i]], tick)
    ensures AllCurrent(after, tick, nodes[..i + 1])
    ensures AllReady(after, tick, nodes[..i + 1])
            <==> AllReady(before, tick, nodes[..i]) && Ready(after[nodes[i]], tick)
  {
    forall k | 0 <= k < i
      ensures nodes[..i][k] == nodes[..i + 1][k] == nodes[k] && nodes[k] < |after|
      ensures after[nodes[k]] == before[nodes[k]]
    {
    }
    if AllReady(after, tick, nodes[..i + 1]) {
      assert nodes[..i + 1][i] == nodes[i];
      forall k | 0 <= k < i ensures Ready(before[nodes[..i][k]], tick) {
        assert Ready(after[nodes[..i + 1][k]], tick);
      }
    }
  }

  class DetachedNodes {
    const w: Wiring
    var memory: Memory
    var caches: seq<Cache>
    var tick: nat
    /** What this tick's evaluations did, in order. */
    var record: seq<(nat, Activity)>
    /** What each node found in the cells when it was last evaluated. */
    ghost var seen: Seen
    /** The nodes evaluated this tick, in order. */
    ghost var evaluated: seq<nat>

    ghost predicate Valid()
      reads this
    {
      && Wired(w) && Sound(w, memory, caches) && Settled(w, seen, caches, tick)
      && forall n :: 0 <= n < |caches| ==> caches[n].tick <= tick
    }

    /** Each node is evaluated at most once a tick, and after all it reads. */
    ghost predicate Once()
      requires Wired(w)
      reads this
    {
      && (forall i, j :: 0 <= i < j < |evaluated| ==> evaluated[i] != evaluated[j])
      && (forall i, j :: 0 <= i < |evaluated| && evaluated[i] < |w.nodes| && j in w.inputs[evaluated[i]] ==>
            j in evaluated[..i])
    }

    /** What was evaluated is up to date, and what is up to date was evaluated
        unless an input failed it. */
    ghost predicate Ordered()
      requires Wired(w) && |caches| == |w.nodes|
      reads this
    {
      && Once()
      && (forall n :: n in evaluated ==> n < |w.nodes| && Current(caches[n], tick))
      && Accounted(w, caches, tick, evaluated)
    }

    /** The same while `n`, just evaluated, is not marked. */
    ghost predicate OrderedBut(n: nat)
      requires Wired(w) && |caches| == |w.nodes|
      reads this
    {
      && Once() && n in evaluated
      && (forall k :: k in evaluated ==> k < |w.nodes| && (k == n || Current(caches[k], tick)))
      && Accounted(w, caches, tick, evaluated)
    }

    /** Calls a node's function with `values`, writing its cell and keeping
        the call when it succeeds. */
    method CallFunction(at: nat, values: seq<Value>) returns (ok: bool)
      requires Valid() && at < |w.nodes| && !Current(caches[at], tick) && w.nodes[at].known
      modifies this`memory, this`caches, this`record
      ensures Valid() && SameOutside(w, old(memory), memory)
      ensures var answer := w.host.call(w.nodes[at].function_, values);
              var counted := old(caches[at]).(calls := old(caches[at]).calls + 1);
              && ok == answer.Gives?
              && caches == old(caches)[at := if answer.Failed? then counted
                                             else counted.(arguments := Some(values), ret := answer.value)]
    {
      var node, counted := w.nodes[at], caches[at].(calls := caches[at].calls + 1);
      record := record + [(at, Called)];
      var answer := w.host.call(node.function_, values);
      if answer.Failed? {
        CacheOfOther(w, seen, caches, tick, at, counted);
        caches := caches[at := counted];
        return false;
      }
      var kept := counted.(arguments := Some(values), ret := answer.value);
      CacheOfOther(w, seen, caches, tick, at, kept);
      SoundAfterCall(w, memory, caches, at, kept);
      memory := Holding(memory, node.out, WrittenBack(answer.value, node.optional));
      caches := caches[at := kept];
      ok := true;
    }

    /** What an evaluation of `at` did: its outcome is the one from scratch,
        and it called the function only if the arguments changed. */
    ghost predicate EvaluatedFrom(at: nat, before: seq<Cache>, ok: bool)
      requires Wired(w) && |seen| == |before| == |caches| == |w.nodes| && at < |w.nodes|
      reads this
    {
      && (ok <==> Scratch(w, seen, at).Gives?)
      && (ok ==> caches[at].arguments.Some? && Scratch(w, seen, at) == Gives(caches[at].ret)
                 && PassedAnew(w, seen, at, caches[at].arguments.value))
      && (forall n :: 0 <= n < |w.nodes| && n != at ==> caches[n] == before[n])
      && caches[at].tick == before[at].tick && caches[at].failed == before[at].failed
      && var passed := PassedAll(w.host, w.nodes[at].arguments, View(w, seen, at, |w.inputs[at]|));
         caches[at].calls == before[at].calls + if Calls(w.nodes[at], before[at], passed) then 1 else 0
    }

    /** Calls a node's function if what it is passed changed. */
    method CallIfChanged(at: nat) returns (ok: bool)
      requires Valid() && at < |w.nodes| && !Current(caches[at], tick)
      requires !InputFails(w, seen, at)
      requires PassedAll(w.host, w.nodes[at].arguments, View(w, seen, at, |w.inputs[at]|))
               == PassedAll(w.host, w.nodes[at].arguments, memory)
      modifies this`memory, this`caches, this`record
      ensures Valid() && SameOutside(w, old(memory), memory) && EvaluatedFrom(at, old(caches), ok)
    {
      var node, cache := w.nodes[at], caches[at];
      assert SoundAt(w, memory, at, cache);
      var passed := PassedAll(w.host, node.arguments, memory);
      if passed.AnyFailed? {
        return false;
      }
      if cache.arguments == Some(passed.values) {
        record := record + [(at, Cached)];
        return true;
      }
      if !node.known {
        return false;
      }
      ok := CallFunction(at, passed.values);
    }

    /** Evaluates a node whose inputs are up to date: calls its function if
        its arguments changed. */
    method Evaluate(at: nat) returns (ok: bool)
      requires Valid() && at < |w.nodes| && !Current(caches[at], tick)
      requires forall j :: j in w.inputs[at] ==> j < |caches| && Ready(caches[j], tick)
      modifies this`memory, this`caches, this`record, this`seen
      ensures Valid() && seen == old(seen)[at := old(memory)] && SameOutside(w, old(memory), memory)
      ensures EvaluatedFrom(at, old(caches), ok)
    {
      var node, cache := w.nodes[at], caches[at];
      SettledIsStable(w, seen, caches, tick, at, memory);
      seen := seen[at := memory];
      CellsHoldTheView(w, seen, caches, tick, memory, at);
      assert SoundAt(w, memory, at, cache);
      if CellsOnly(node.arguments) && cache.arguments.Some? {
        var same := ComparesInPlace(w.host, node.arguments, cache.arguments.value, memory);
        if same {
          record := record + [(at, Cached)];
          return true;
        }
      }
      ok := CallIfChanged(at);
    }

    /** Marks every node waiting on the stack as failed this tick. */
    method FailWaiting(stack: seq<(nat, nat)>)
      requires Valid() && stack != [] && Waiting(w, caches, tick, stack)
      requires var top := stack[|stack| - 1].0;
               Scratch(w, seen, top).Failed?
               && (AllInputs(w, top, caches, tick) || AnInputFailed(w, top, caches, tick))
      modifies this`caches
      ensures Valid()
      ensures forall n :: 0 <= n < |w.nodes| ==>
                caches[n] == if n in OnPath(stack) then old(caches[n]).(tick := tick, failed := true)
                             else old(caches[n])
    {
      ghost var before := caches;
      for i := 0 to |stack|
        invariant |caches| == |before|
        invariant forall n :: 0 <= n < |w.nodes| ==>
                    caches[n] == if n in OnPath(stack[..i]) then before[n].(tick := tick, failed := true) else before[n]
      {
        var waiting := stack[i].0;
        OnPathMore(stack, i);
        caches := caches[waiting := caches[waiting].(tick := tick, failed := true)];
      }
      assert stack[..|stack|] == stack;
      FailureSettles(w, seen, before, tick, stack, caches);
      forall n | 0 <= n < |w.nodes| ensures SoundAt(w, memory, n, caches[n]) {
        assert SoundAt(w, memory, n, before[n]);
      }
    }

    /** One more evaluated, after all it reads. */
    lemma EvaluatedOnceMore(before: seq<nat>, n: nat)
      requires Wired(w) && n < |w.nodes| && n !in before && evaluated == before + [n]
      requires forall i, j :: 0 <= i < j < |before| ==> before[i] != before[j]
      requires forall i, j :: 0 <= i < |before| && before[i] < |w.nodes| && j in w.inputs[before[i]] ==>
                j in before[..i]
      requires forall j :: j in w.inputs[n] ==> j in before
      ensures Once()
    {
      forall i, j | 0 <= i < |evaluated| && evaluated[i] < |w.nodes| && j in w.inputs[evaluated[i]]
        ensures j in evaluated[..i]
      {
        if i < |before| {
          assert j in before[..i] && evaluated[..i] == before[..i];
        } else {
          assert evaluated[..i] == before;
        }
      }
    }

    /** Evaluates the node on top, whose inputs are up to date, and marks it
        when it does not fail. */
    method EvaluateTop(n: nat, ghost start: seq<Cache>, ghost anew: set<nat>) returns (ok: bool)
      requires Valid() && Ordered() && n < |w.nodes| && !Current(caches[n], tick) && n !in anew
      requires forall j :: j in w.inputs[n] ==> j < |caches| && Ready(caches[j], tick)
      requires CallsRight(w, seen, start, caches, anew)
      requires forall k :: k in anew ==> k < |caches| && Ready(caches[k], tick)
      modifies this`memory, this`caches, this`record, this`seen, this`evaluated
      ensures Valid() && Once() && evaluated == old(evaluated) + [n] && SameOutside(w, old(memory), memory)
      ensures CallsRight(w, seen, start, caches, anew + {n}) && seen == old(seen)[n := old(memory)]
      ensures forall k :: 0 <= k < |w.nodes| && k != n ==> caches[k] == old(caches[k])
      ensures if ok then Ready(caches[n], tick)
              else caches[n].tick == old(caches[n]).tick && Scratch(w, seen, n).Failed?
                   && AllInputs(w, n, caches, tick)
    {
      ghost var before, m, s := caches, memory, seen;
      forall j | j in w.inputs[n] ensures j in evaluated {
        assert AccountedAt(w, caches, tick, evaluated, j);
      }
      ok := Evaluate(n);
      CallsStayRight(w, s, start, before, caches, tick, anew, n, m);
      evaluated := evaluated + [n];
      EvaluatedOnceMore(old(evaluated), n);
      if ok {
        SuccessSettles(w, seen, caches, tick, n);
        ghost var unmarked := caches;
        caches := caches[n := caches[n].(tick := tick, failed := false)];
        MarkingKeeps(w, memory, seen, start, unmarked, caches, anew + {n});
      }
    }

    ghost function Now(): Before
      reads this
    {
      Before(caches, evaluated, memory, seen)
    }

    ghost predicate Since(b: Before, anew: set<nat>)
      requires Wired(w)
      reads this
    {
      Followed(w, tick, b, Now(), anew)
    }

    /** Evaluates a node, and keeps track of what was done since `b`. */
    method EvaluateSince(n: nat, ghost b: Before, ghost anew: set<nat>) returns (ok: bool)
      requires Valid() && Ordered() && n < |w.nodes| && !Current(caches[n], tick)
      requires forall j :: j in w.inputs[n] ==> j < |caches| && Ready(caches[j], tick)
      requires Since(b, anew) && forall k :: k in anew ==> k < |caches| && Ready(caches[k], tick)
      modifies this`memory, this`caches, this`record, this`seen, this`evaluated
      ensures Valid() && OrderedBut(n) && Since(b, anew + {n})
      ensures forall k :: 0 <= k < |w.nodes| && k != n ==> caches[k] == old(caches)[k]
      ensures if ok then Ready(caches[n], tick)
              else caches[n].tick == old(caches[n]).tick && Scratch(w, seen, n).Failed?
                   && AllInputs(w, n, caches, tick)
    {
      EvaluatedGrows(b.evaluated, evaluated, evaluated + [n], n);
      ghost var unevaluated, before := caches, evaluated;
      ok := EvaluateTop(n, b.caches, anew);
      AccountedOnceMore(w, unevaluated, caches, tick, before, n);
    }

    /** The node the stack ends on was evaluated and failed: so do those
        waiting. */
    method FailEvaluated(stack: seq<(nat, nat)>, n: nat, ghost b: Before, ghost anew: set<nat>)
      requires Valid() && OrderedBut(n) && Waiting(w, caches, tick, stack) && stack != [] && stack[|stack| - 1].0 == n
      requires n < |w.nodes| && Scratch(w, seen, n).Failed? && AllInputs(w, n, caches, tick)
      requires Since(b, anew)
      modifies this`caches
      ensures Valid() && Ordered() && Since(b, anew)
      ensures forall k :: k in OnPath(stack) ==> k < |caches| && Current(caches[k], tick) && caches[k].failed
    {
      assert stack[|stack| - 1].0 in OnPath(stack);
      ghost var unmarked := caches;
      FailWaiting(stack);
      MarkingKeeps(w, memory, seen, b.caches, unmarked, caches, anew);
      AccountedAfterFailure(w, unmarked, caches, tick, evaluated, stack);
    }

    /** Evaluates the node the stack ends on, whose inputs are up to date; a
        failure fails those waiting on it. */
    method FinishTop(stack: seq<(nat, nat)>, n: nat, ghost b: Before,
                     ghost anew: set<nat>)
      returns (ok: bool)
      requires Valid() && Ordered() && Waiting(w, caches, tick, stack) && stack != []
      requires n < |w.nodes| && stack[|stack| - 1] == (n, |w.inputs[n]|)
      requires Since(b, anew)
      requires forall k :: k in anew ==> k < |caches| && Ready(caches[k], tick)
      modifies this`memory, this`caches, this`record, this`seen, this`evaluated
      ensures Valid() && Ordered() && Since(b, anew + {n})
      ensures ok ==> Waiting(w, caches, tick, stack[..|stack| - 1]) && Ready(caches[n], tick)
      ensures ok ==> forall k :: k in anew ==> k < |caches| && Ready(caches[k], tick)
      ensures ok ==> Pending(w, caches, tick) < old(Pending(w, caches, tick))
      ensures !ok ==> forall k :: k in OnPath(stack) ==> k < |caches| && Current(caches[k], tick) && caches[k].failed
    {
      TopIsReady(w, caches, tick, stack, n);
      ghost var unevaluated := caches;
      ok := EvaluateSince(n, b, anew);
      if ok {
        WaitingLeaves(w, unevaluated, caches, tick, stack, n);
      } else {
        StillWaiting(w, unevaluated, caches, tick, stack, n);
        FailEvaluated(stack, n, b, anew + {n});
      }
    }

    /** Looks at the next read of the node the stack ends on, which did not
        fail: past it, or into it when it is not up to date. */
    method Look(stack: seq<(nat, nat)>, n: nat, next: nat) returns (on: seq<(nat, nat)>)
      requires Valid() && Waiting(w, caches, tick, stack) && stack != []
      requires n < |w.nodes| && stack[|stack| - 1] == (n, next) && next < |w.inputs[n]|
      requires var read := w.inputs[n][next];
               read < |caches| && (!Current(caches[read], tick) || Ready(caches[read], tick))
      ensures Waiting(w, caches, tick, on) && on != [] && on[0].0 == stack[0].0
      ensures TopRank(w, caches, tick, on) < TopRank(w, caches, tick, stack)
              || (TopRank(w, caches, tick, on) == TopRank(w, caches, tick, stack)
                  && TopLeft(w, caches, tick, on) < TopLeft(w, caches, tick, stack))
    {
      var top, read := |stack| - 1, w.inputs[n][next];
      assert read in w.inputs[n];
      InputsRankLower(w, n, read);
      if Current(caches[read], tick) {
        WaitingPasses(w, caches, tick, stack, n, next);
        on := stack[top := (n, next + 1)];
      } else {
        WaitingDescends(w, caches, tick, stack, n, next);
        on := stack[top := (n, next + 1)] + [(read, 0)];
      }
    }

    /** An input of the node the stack ends on failed: so do those waiting. */
    method FailOn(stack: seq<(nat, nat)>, n: nat, next: nat, ghost b: Before, ghost anew: set<nat>)
      requires Valid() && Ordered() && Waiting(w, caches, tick, stack) && stack != []
      requires n < |w.nodes| && stack[|stack| - 1] == (n, next) && next < |w.inputs[n]|
      requires w.inputs[n][next] < |caches|
      requires Current(caches[w.inputs[n][next]], tick) && caches[w.inputs[n][next]].failed
      requires Since(b, anew)
      modifies this`caches
      ensures Valid() && Ordered() && Since(b, anew)
      ensures forall k :: k in OnPath(stack) ==> k < |caches| && Current(caches[k], tick) && caches[k].failed
    {
      var read := w.inputs[n][next];
      assert read in w.inputs[n];
      assert SettledAt(w, seen, caches, tick, read);
      assert ScratchInput(w, seen, n, next).Failed?;
      ghost var unmarked := caches;
      FailWaiting(stack);
      MarkingKeeps(w, memory, seen, b.caches, unmarked, caches, anew);
      AccountedAfterFailure(w, unmarked, caches, tick, evaluated, stack);
    }

    /** The state while `at` is being brought up to date. */
    ghost predicate Bringing(at: nat, stack: seq<(nat, nat)>, b: Before,
                             anew: set<nat>)
      reads this
    {
      && Valid() && Ordered() && Since(b, anew)
      && at < |w.nodes| && Waiting(w, caches, tick, stack)
      && (forall n :: n in anew ==> n < |caches| && Ready(caches[n], tick))
      && (if stack == [] then Current(caches[at], tick) else stack[0].0 == at)
    }

    /**
     Brings a node up to date for this tick: what it reads first, each node
     evaluated at most once a tick; a failure fails every node waiting on it.
     A node is called only where it was evaluated with other arguments than
     at its last successful call, and what no node writes stays as it is.
     */
    method BringUpToDate(at: nat) returns (ok: bool)
      requires Valid() && Ordered() && at < |w.nodes|
      modifies this`memory, this`caches, this`record, this`seen, this`evaluated
      ensures Valid() && Ordered()
      ensures Current(caches[at], tick) && ok == Ready(caches[at], tick)
      ensures ok <==> Scratch(w, seen, at).Gives?
      ensures Since(old(Now()), SetOf(evaluated) - SetOf(old(evaluated)))
      ensures OnlyReadFor(w, old(evaluated), evaluated, {at})
      ensures old(Current(caches[at], tick)) ==> caches == old(caches) && evaluated == old(evaluated)
    {
      if Current(caches[at], tick) {
        assert SettledAt(w, seen, caches, tick, at);
        return !caches[at].failed;
      }
      ok := BringUp(at);
      assert SettledAt(w, seen, caches, tick, at);
    }

    /** Looks at the next read of the node the stack ends on; when it failed
        this tick, so do those waiting. */
    method LookOrFail(at: nat, stack: seq<(nat, nat)>, n: nat, next: nat, ghost b: Before, ghost anew: set<nat>)
      returns (ok: bool, on: seq<(nat, nat)>)
      requires Bringing(at, stack, b, anew) && stack != []
      requires n < |w.nodes| && stack[|stack| - 1] == (n, next) && next < |w.inputs[n]|
      modifies this`caches
      ensures ok ==> caches == old(caches) && Bringing(at, on, b, anew) && on != []
      ensures ok ==> Nearer(w, caches, caches, tick, stack, on)
      ensures !ok ==> Valid() && Ordered() && Since(b, anew) && Current(caches[at], tick) && caches[at].failed
    {
      on := stack;
      assert stack[0].0 in OnPath(stack);
      var read := w.inputs[n][next];
      assert read in w.inputs[n];
      if Current(caches[read], tick) && caches[read].failed {
        FailOn(stack, n, next, b, anew);
        return false, stack;
      }
      on := Look(stack, n, next);
      ok := true;
    }

    /** Evaluates the node the stack ends on, and leaves it unless it fails. */
    method FinishOrFail(at: nat, stack: seq<(nat, nat)>, n: nat, ghost b: Before, ghost anew: set<nat>)
      returns (ok: bool)
      requires Bringing(at, stack, b, anew) && stack != []
      requires n < |w.nodes| && stack[|stack| - 1] == (n, |w.inputs[n]|)
      modifies this`memory, this`caches, this`record, this`seen, this`evaluated
      ensures ok ==> Bringing(at, stack[..|stack| - 1], b, anew + {n})
      ensures ok ==> |stack| == 1 ==> Ready(caches[at], tick)
      ensures ok ==> Nearer(w, old(caches), caches, tick, stack, stack[..|stack| - 1])
      ensures !ok ==> Valid() && Ordered() && Since(b, anew + {n}) && Current(caches[at], tick) && caches[at].failed
    {
      assert stack[0].0 in OnPath(stack);
      ok := FinishTop(stack, n, b, anew);
    }

    /** One turn of the loop: looks at the next read of the node the stack
        ends on, or evaluates it. */
    method Step(at: nat, stack: seq<(nat, nat)>, ghost b: Before, ghost anew: set<nat>)
      returns (ok: bool, on: seq<(nat, nat)>, ghost newer: set<nat>)
      requires Bringing(at, stack, b, anew) && stack != []
      modifies this`memory, this`caches, this`record, this`seen, this`evaluated
      ensures ok ==> Bringing(at, on, b, newer) && (on == [] ==> Ready(caches[at], tick))
      ensures ok ==> Nearer(w, old(caches), caches, tick, stack, on)
      ensures !ok ==> Valid() && Ordered() && Since(b, newer) && Current(caches[at], tick) && caches[at].failed
      ensures newer <= anew + {stack[|stack| - 1].0}
    {
      var (n, next) := stack[|stack| - 1];
      if next < |w.inputs[n]| {
        newer := anew;
        ok, on := LookOrFail(at, stack, n, next, b, anew);
      } else {
        assert InChildren(InputEdges(w.inputs), stack[|stack| - 1]);
        newer, on := anew + {n}, stack[..|stack| - 1];
        ok := FinishOrFail(at, stack, n, b, anew);
      }
    }

    /** Brings up to date a node that is not, the nodes it reads first. */
    method BringUp(at: nat) returns (ok: bool)
      requires Valid() && Ordered() && at < |w.nodes| && !Current(caches[at], tick)
      modifies this`memory, this`caches, this`record, this`seen, this`evaluated
      ensures Valid() && Ordered()
      ensures Current(caches[at], tick) && ok == !caches[at].failed
      ensures Since(old(Now()), SetOf(evaluated) - SetOf(old(evaluated)))
      ensures OnlyReadFor(w, old(evaluated), evaluated, {at})
    {
      ghost var b := Now();
      ghost var anew: set<nat> := {};
      var stack: seq<(nat, nat)> := [(at, 0)];
      assert Bringing(at, stack, b, anew);
      hide Sound, Settled, IsOrder, Scratch;
      while stack != []
        invariant Bringing(at, stack, b, anew)
        invariant stack == [] ==> !caches[at].failed
        invariant anew <= ReadFor(w, {at})
        decreases Pending(w, caches, tick), TopRank(w, caches, tick, stack), TopLeft(w, caches, tick, stack)
      {
        PathReaches(InputEdges(w.inputs), stack, 0, {at});
        ok, stack, anew := Step(at, stack, b, anew);
        if !ok {
          return;
        }
      }
      ok := true;
    }

    /** Brings each of `nodes` up to date; one that fails stops no other. */
    method BringAll(nodes: seq<nat>) returns (ok: bool)
      requires Valid() && Ordered() && forall k :: 0 <= k < |nodes| ==> nodes[k] < |w.nodes|
      modifies this`memory, this`caches, this`record, this`seen, this`evaluated
      ensures Valid() && Ordered()
      ensures Since(old(Now()), SetOf(evaluated) - SetOf(old(evaluated)))
      ensures OnlyReadFor(w, old(evaluated), evaluated, SetOf(nodes))
      ensures AllCurrent(caches, tick, nodes) && (ok <==> AllReady(caches, tick, nodes))
    {
      ghost var start := Now();
      ok := true;
      NothingFollows(w, tick, start);
      for i := 0 to |nodes|
        invariant Brought(start, nodes, i) && (ok <==> AllReady(caches, tick, nodes[..i]))
      {
        var fine := BringOne(nodes, i, start);
        ok := ok && fine;
      }
      assert nodes[..|nodes|] == nodes;
    }

    /** Brings one more of `nodes` up to date, keeping track of what was done
        since `start`. */
    method BringOne(nodes: seq<nat>, i: nat, ghost start: Before) returns (ok: bool)
      requires i < |nodes| && nodes[i] < |w.nodes| && Brought(start, nodes, i)
      modifies this`memory, this`caches, this`record, this`seen, this`evaluated
      ensures Brought(start, nodes, i + 1)
      ensures AllReady(caches, tick, nodes[..i + 1]) <==> AllReady(old(caches), tick, nodes[..i]) && ok
    {
      ghost var mid := Now();
      var at := nodes[i];
      EvaluatedHadInputs();
      ok := BringUpToDate(at);
      FollowedJoins(w, tick, start, mid, Now());
      assert at in SetOf(nodes);
      ReadForMore(w, start.evaluated, mid.evaluated, evaluated, {at}, SetOf(nodes));
      OneMoreCurrent(mid.caches, caches, tick, nodes, i);
    }

    /** The first `i` of `nodes` brought up to date since `start`. */
    ghost predicate Brought(start: Before, nodes: seq<nat>, i: nat)
      requires i <= |nodes|
      reads this
    {
      && Valid() && Ordered() && Since(start, SetOf(evaluated) - SetOf(start.evaluated))
      && OnlyReadFor(w, start.evaluated, evaluated, SetOf(nodes))
      && AllCurrent(caches, tick, nodes[..i])
    }

    /** A set of nodes none of which was brought up to date yet. */
    constructor (w: Wiring, memory: Memory)
      requires Wired(w)
      ensures this.w == w && this.memory == memory && Valid() && Ordered() && evaluated == []
      ensures tick == 1 && forall n :: 0 <= n < |w.nodes| ==> caches[n] == Cache(0, None, Unit, 0, false)
    {
      this.w, this.memory, tick, record := w, memory, 1, [];
      caches := seq(|w.nodes|, _ => Cache(0, None, Unit, 0, false));
      seen := seq(|w.nodes|, _ => memory);
      evaluated := [];
    }

    /** Starts a tick: no node is up to date until it is read. */
    method BeginTick()
      requires Valid()
      modifies this`tick, this`record, this`evaluated
      ensures Valid() && Ordered() && tick == old(tick) + 1 && evaluated == [] && record == []
      ensures forall n :: 0 <= n < |w.nodes| ==> !Current(caches[n], tick)
    {
      tick, record, evaluated := tick + 1, [], [];
    }

    /** A cell no node writes takes another content. */
    method WriteOutside(cell: Cell, content: Option<Value>)
      requires Valid() && Ordered() && !IsOut(w, cell)
      modifies this`memory
      ensures Valid() && Ordered() && memory == Holding(old(memory), cell, content)
    {
      SoundOutside(w, memory, Holding(memory, cell, content), caches);
      memory := Holding(memory, cell, content);
    }

    /** Brings up to date what a tree node reads; the first failure stops. */
    method Pull(nodes: seq<nat>) returns (ok: bool)
      requires Valid() && Ordered() && forall k :: 0 <= k < |nodes| ==> nodes[k] < |w.nodes|
      modifies this`memory, this`caches, this`record, this`seen, this`evaluated
      ensures Valid() && Ordered()
      ensures Follow(w, tick, old(Now()), Now()) && Between(w, tick, Now())
      ensures OnlyReadFor(w, old(evaluated), evaluated, SetOf(nodes))
      ensures ok <==> AllReady(caches, tick, nodes)
    {
      ghost var start := Now();
      NothingFollows(w, tick, start);
      ok := true;
      for i := 0 to |nodes|
        invariant Brought(start, nodes, i) && AllReady(caches, tick, nodes[..i]) && ok
      {
        ok := BringOne(nodes, i, start);
        if !ok {
          EvaluatedHadInputs();
          return;
        }
      }
      assert nodes[..|nodes|] == nodes;
      EvaluatedHadInputs();
    }

    /** Writes the keys of the sinks that did not fail, in the order listed. */
    method Publish(sinks: seq<nat>)
      requires Valid() && Ordered() && forall k :: 0 <= k < |sinks| ==> sinks[k] < |w.nodes|
      modifies this`memory
      ensures Valid() && Ordered() && memory == Published(w, caches, old(memory), sinks)
    {
      for i := 0 to |sinks|
        invariant Valid() && memory == Published(w, caches, old(memory), sinks[..i])
      {
        var sink := sinks[i];
        assert sinks[..i + 1][..i] == sinks[..i];
        if !caches[sink].failed && w.nodes[sink].publish.Some? {
          var key := Stored(w.nodes[sink].publish.value);
          var content := WrittenBack(caches[sink].ret, w.nodes[sink].optional);
          SoundOutside(w, memory, Holding(memory, key, content), caches);
          memory := Holding(memory, key, content);
        }
      }
      assert sinks[..|sinks|] == sinks;
    }

    /**
     Brings every sink up to date, then writes the keys of those that did not
     fail, then brings the observed nodes up to date: `ready` is the state
     before the first key is written, all sinks up to date.
     */
    method TickSinks(sinks: seq<nat>, observed: seq<nat>) returns (ok: bool, ghost ready: Before)
      requires Valid() && Ordered()
      requires forall k :: 0 <= k < |sinks| ==> sinks[k] < |w.nodes|
      requires forall k :: 0 <= k < |observed| ==> observed[k] < |w.nodes|
      modifies this`memory, this`caches, this`record, this`seen, this`evaluated
      ensures Valid() && Ordered()
      ensures Follow(w, tick, old(Now()), ready) && Between(w, tick, ready)
      ensures AllCurrent(ready.caches, tick, sinks) && AllCurrent(caches, tick, observed)
      ensures Since(ready.(memory := Published(w, ready.caches, ready.memory, sinks)),
                    SetOf(evaluated) - SetOf(ready.evaluated))
      ensures ok <==> AllReady(ready.caches, tick, sinks) && AllReady(caches, tick, observed)
      ensures OnlyReadFor(w, old(evaluated), evaluated, SetOf(sinks) + SetOf(observed))
    {
      ok := BringAll(sinks);
      ready := Now();
      EvaluatedHadInputs();
      Publish(sinks);
      var fine := BringAll(observed);
      ok := ok && fine;
      ghost var all := SetOf(sinks) + SetOf(observed);
      ReadForMore(w, old(evaluated), old(evaluated), ready.evaluated, SetOf(sinks), all);
      ReadForMore(w, old(evaluated), ready.evaluated, evaluated, SetOf(observed), all);
    }

    /** What was evaluated this tick had all its inputs up to date. */
    lemma EvaluatedHadInputs()
      requires Wired(w) && |caches| == |w.nodes| && Ordered()
      ensures forall n :: n in evaluated ==> n < |w.nodes| && AllInputs(w, n, caches, tick)
    {
      forall n | n in evaluated ensures n < |w.nodes| && AllInputs(w, n, caches, tick) {
        var i :| 0 <= i < |evaluated| && evaluated[i] == n;
        forall j | j in w.inputs[n] ensures j < |caches| && Current(caches[j], tick) {
          assert j in evaluated[..i];
          assert j in evaluated;
        }
      }
    }
  }

  /** Cells no node writes settle nothing of what the nodes keep. */
  lemma SoundOutside(w: Wiring, a: Memory, b: Memory, caches: seq<Cache>)
    requires Wired(w) && Sound(w, a, caches) && forall cell :: IsOut(w, cell) ==> Held(a, cell) == Held(b, cell)
    ensures Sound(w, b, caches)
  {
    forall n | 0 <= n < |w.nodes| ensures SoundAt(w, b, n, caches[n]) {
      assert SoundAt(w, a, n, caches[n]) && IsOut(w, w.nodes[n].out);
    }
  }

  // What the sinks publish.

  /** The memory once each of the sinks that did not fail, in order, wrote
      its key. */
  function Published(w: Wiring, caches: seq<Cache>, m: Memory, sinks: seq<nat>): Memory
    requires |caches| == |w.nodes| && forall k :: 0 <= k < |sinks| ==> sinks[k] < |w.nodes|
  {
    if sinks == [] then m
    else
      var before, sink := Published(w, caches, m, sinks[..|sinks| - 1]), sinks[|sinks| - 1];
      if caches[sink].failed || w.nodes[sink].publish.None? then before
      else Holding(before, Stored(w.nodes[sink].publish.value), WrittenBack(caches[sink].ret, w.nodes[sink].optional))
  }

  /** A key ends with what the last sink bound to it that did not fail gave. */
  lemma {:induction false} LastSinkWins(w: Wiring, caches: seq<Cache>, m: Memory, sinks: seq<nat>, i: nat, key: string)
    requires |caches| == |w.nodes| && forall k :: 0 <= k < |sinks| ==> sinks[k] < |w.nodes|
    requires i < |sinks| && !caches[sinks[i]].failed && w.nodes[sinks[i]].publish == Some(key)
    requires forall k :: i < k < |sinks| ==> caches[sinks[k]].failed || w.nodes[sinks[k]].publish != Some(key)
    ensures Held(Published(w, caches, m, sinks), Stored(key))
            == WrittenBack(caches[sinks[i]].ret, w.nodes[sinks[i]].optional)
    decreases |sinks|
  {
    if i < |sinks| - 1 {
      LastSinkWins(w, caches, m, sinks[..|sinks| - 1], i, key);
    }
  }

  /** A cell that is no key such a sink is bound to stays as it was. */
  lemma {:induction false} OthersStay(w: Wiring, caches: seq<Cache>, m: Memory, sinks: seq<nat>, cell: Cell)
    requires |caches| == |w.nodes| && forall k :: 0 <= k < |sinks| ==> sinks[k] < |w.nodes|
    requires cell.Stored? ==>
               forall k :: 0 <= k < |sinks| ==> caches[sinks[k]].failed || w.nodes[sinks[k]].publish != Some(cell.key)
    ensures Held(Published(w, caches, m, sinks), cell) == Held(m, cell)
    decreases |sinks|
  {
    if sinks != [] {
      OthersStay(w, caches, m, sinks[..|sinks| - 1], cell);
    }
  }

  // A tick over cells that stay as they are.

  /** Every node computed from the same cells. */
  ghost function From(w: Wiring, m: Memory): Seen {
    seq(|w.nodes|, _ => m)
  }

  lemma ViewsAgree(w: Wiring, a: Seen, b: Seen, n: nat)
    requires Wired(w) && |a| == |b| == |w.nodes| && n < |w.nodes| && SameOutside(w, a[n], b[n])
    requires forall i :: 0 <= i < |w.inputs[n]| ==> ScratchInput(w, a, n, i) == ScratchInput(w, b, n, i)
    requires !InputFails(w, a, n)
    ensures Scratch(w, a, n) == Scratch(w, b, n)
  {
    var count := |w.inputs[n]|;
    var one, other := View(w, a, n, count), View(w, b, n, count);
    forall cell | cell in ArgumentCells(w.nodes[n].arguments) ensures Held(one, cell) == Held(other, cell) {
      if IsOut(w, cell) {
        var j :| 0 <= j < |w.nodes| && w.nodes[j].out == cell;
        assert j in w.inputs[n];
        var i :| 0 <= i < count && w.inputs[n][i] == j;
        ViewOfInput(w, a, n, count, i);
        ViewOfInput(w, b, n, count, i);
      } else {
        ViewOfOutside(w, a, n, count, cell);
        ViewOfOutside(w, b, n, count, cell);
      }
    }
    PassedAgrees(w.host, w.nodes[n].arguments, one, other);
  }

  /**
   While the cells no node writes stay as `m` has them, every node brought up
   to date, by whatever reads in whatever order, gives what recomputing it
   and all it reads from `m` gives.
   */
  lemma {:induction false} GivesFromScratch(w: Wiring, seen: Seen, caches: seq<Cache>, tick: nat, evaluated: seq<nat>,
                                            m: Memory, n: nat)
    requires Wired(w) && Settled(w, seen, caches, tick) && Accounted(w, caches, tick, evaluated)
    requires forall k :: k in evaluated ==>
               k < |w.nodes| && AllInputs(w, k, caches, tick) && SameOutside(w, m, seen[k])
    requires n < |w.nodes| && Current(caches[n], tick)
    ensures Scratch(w, From(w, m), n) == if caches[n].failed then Failed else Gives(caches[n].ret)
    decreases Rank(w, n)
  {
    var anew := From(w, m);
    assert SettledAt(w, seen, caches, tick, n) && AccountedAt(w, caches, tick, evaluated, n);
    if n in evaluated {
      forall i | 0 <= i < |w.inputs[n]| ensures ScratchInput(w, seen, n, i) == ScratchInput(w, anew, n, i) {
        var j := w.inputs[n][i];
        assert j in w.inputs[n];
        InputsRankLower(w, n, j);
        GivesFromScratch(w, seen, caches, tick, evaluated, m, j);
        assert SettledAt(w, seen, caches, tick, j);
      }
      if InputFails(w, seen, n) {
        var i :| 0 <= i < |w.inputs[n]| && ScratchInput(w, seen, n, i).Failed?;
        assert ScratchInput(w, anew, n, i).Failed?;
      } else {
        ViewsAgree(w, seen, anew, n);
      }
    } else {
      var j :| j in w.inputs[n] && j < |caches| && Current(caches[j], tick) && caches[j].failed;
      InputsRankLower(w, n, j);
      GivesFromScratch(w, seen, caches, tick, evaluated, m, j);
      var i :| 0 <= i < |w.inputs[n]| && w.inputs[n][i] == j;
      assert ScratchInput(w, anew, n, i).Failed?;
    }
  }

  /** A state between two of a tick's reads: what is up to date gives what it
      gives from scratch, and what was evaluated had all it reads. */
  ghost predicate Between(w: Wiring, tick: nat, b: Before)
    requires Wired(w)
  {
    && Settled(w, b.seen, b.caches, tick) && Accounted(w, b.caches, tick, b.evaluated)
    && forall n :: n in b.evaluated ==> n < |w.nodes| && Current(b.caches[n], tick) && AllInputs(w, n, b.caches, tick)
  }

  /** A tick's states, one after another from its start, over cells outside
      that stay as they are: one read of a tree node, or the sinks', each. */
  ghost predicate Reads(w: Wiring, tick: nat, states: seq<Before>)
    requires Wired(w)
  {
    && states != [] && states[0].evaluated == []
    && (forall i :: 0 <= i < |states| ==> Between(w, tick, states[i]))
    && (forall i, j :: 0 <= i < j < |states| && j == i + 1 ==> Follow(w, tick, states[i], states[j]))
  }

  ghost predicate Follow(w: Wiring, tick: nat, a: Before, b: Before)
    requires Wired(w)
  {
    Followed(w, tick, a, b, SetOf(b.evaluated) - SetOf(a.evaluated))
  }

  lemma {:induction false} ReadsFollow(w: Wiring, tick: nat, states: seq<Before>, i: nat)
    requires Wired(w) && Reads(w, tick, states) && i < |states|
    ensures Follow(w, tick, states[0], states[i])
    decreases i
  {
    assert Between(w, tick, states[0]);
    if i == 0 {
      NothingFollows(w, tick, states[0]);
    } else {
      ReadsFollow(w, tick, states, i - 1);
      assert Between(w, tick, states[i - 1]) && Follow(w, tick, states[i - 1], states[i]);
      FollowedJoins(w, tick, states[0], states[i - 1], states[i]);
    }
  }

  /**
   Over a whole tick, up to the sinks' first write: after whatever reads in
   whatever order, every node up to date gives what recomputing it and all it
   reads from the cells the tick began with gives; and each was called at most
   once since, only if that would pass it other values than its last
   successful call did.
   */
  lemma TickGivesFromScratch(w: Wiring, tick: nat, states: seq<Before>, n: nat)
    requires Wired(w) && Reads(w, tick, states) && n < |w.nodes|
    requires var last := states[|states| - 1]; |last.caches| == |w.nodes| && Current(last.caches[n], tick)
    ensures var first, last := states[0], states[|states| - 1];
            && Scratch(w, From(w, first.memory), n)
               == (if last.caches[n].failed then Failed else Gives(last.caches[n].ret))
            && CallsRight(w, last.seen, first.caches, last.caches, SetOf(last.evaluated))
  {
    var first, last := states[0], states[|states| - 1];
    assert Between(w, tick, last);
    ReadsFollow(w, tick, states, |states| - 1);
    assert SetOf(last.evaluated) - SetOf(first.evaluated) == SetOf(last.evaluated);
    forall k | k in last.evaluated ensures SameOutside(w, first.memory, last.seen[k]) {
      assert k in SetOf(last.evaluated);
    }
    GivesFromScratch(w, last.seen, last.caches, tick, last.evaluated, first.memory, n);
  }

  lemma NothingFollows(w: Wiring, tick: nat, b: Before)
    requires Wired(w) && |b.caches| == |b.seen| == |w.nodes|
    ensures Followed(w, tick, b, b, SetOf(b.evaluated) - SetOf(b.evaluated))
  {
    forall n | 0 <= n < |w.nodes| ensures CallRightAt(w, b.seen, b.caches, b.caches, false, n) {
    }
  }

  /** What followed from `a` to `b` and from `b` to `c` followed from `a` to
      `c`. */
  lemma FollowedJoins(w: Wiring, tick: nat, a: Before, b: Before, c: Before)
    requires Wired(w) && Settled(w, b.seen, b.caches, tick)
    requires Followed(w, tick, a, b, SetOf(b.evaluated) - SetOf(a.evaluated))
    requires Followed(w, tick, b, c, SetOf(c.evaluated) - SetOf(b.evaluated))
    requires forall n :: n in b.evaluated ==>
               n < |w.nodes| && Current(b.caches[n], tick) && AllInputs(w, n, b.caches, tick)
    ensures Followed(w, tick, a, c, SetOf(c.evaluated) - SetOf(a.evaluated))
  {
    var first, more := SetOf(b.evaluated) - SetOf(a.evaluated), SetOf(c.evaluated) - SetOf(b.evaluated);
    var all := SetOf(c.evaluated) - SetOf(a.evaluated);
    PrefixesJoin(a.evaluated, b.evaluated, c.evaluated);
    forall n | 0 <= n < |w.nodes| ensures CallRightAt(w, c.seen, a.caches, c.caches, n in all, n) {
      assert CallRightAt(w, b.seen, a.caches, b.caches, n in first, n);
      assert CallRightAt(w, c.seen, b.caches, c.caches, n in more, n);
      if n in first {
        assert n in b.evaluated;
        ScratchIsStable(w, b.seen, c.seen, b.caches, tick, n);
      }
    }
  }

  lemma PrefixesJoin(a: seq<nat>, b: seq<nat>, c: seq<nat>)
    requires a <= b <= c
    ensures a <= c
    ensures SetOf(c) - SetOf(a) == (SetOf(b) - SetOf(a)) + (SetOf(c) - SetOf(b))
  {
    assert forall x :: x in a ==> x in b;
    assert forall x :: x in b ==> x in c;
  }

  /** Marks change nothing of the calls. */
  lemma MarkingKeeps(w: Wiring, m: Memory, seen: Seen, start: seq<Cache>, before: seq<Cache>, after: seq<Cache>,
                     anew: set<nat>)
    requires Wired(w) && Sound(w, m, before) && CallsRight(w, seen, start, before, anew) && |after| == |before|
    requires forall n :: 0 <= n < |before| ==>
               after[n].(tick := before[n].tick, failed := before[n].failed) == before[n]
    ensures Sound(w, m, after) && CallsRight(w, seen, start, after, anew)
  {
    forall n | 0 <= n < |w.nodes|
      ensures SoundAt(w, m, n, after[n]) && CallRightAt(w, seen, start, after, n in anew, n)
    {
      assert SoundAt(w, m, n, before[n]) && CallRightAt(w, seen, start, before, n in anew, n);
    }
  }

  lemma OnPathMore(stack: seq<(nat, nat)>, i: nat)
    requires i < |stack|
    ensures OnPath(stack[..i + 1]) == OnPath(stack[..i]) + {stack[i].0}
  {
    forall x | x in OnPath(stack[..i]) ensures x in OnPath(stack[..i + 1]) {
      var k :| 0 <= k < i && stack[..i][k].0 == x;
      assert stack[..i + 1][k].0 == x;
    }
    assert stack[..i + 1][i].0 == stack[i].0;
  }
}
