/**
 When detached nodes call their functions, when they fail, and what a node with
 state leaves in its ports, told from what the cells hold.
 */
module NodeCalls {
  import opened Integers
  import opened Graphs
  import opened Expressions
  import D = Detached
  import S = StatefulNodes

  // Detached nodes.

  /** A node fails when one it reads does, or when its function is unknown. */
  lemma FailsWithout(w: D.Wiring, seen: D.Seen, n: nat)
    requires D.Wired(w) && |seen| == |w.nodes| && n < |w.nodes|
    ensures !w.nodes[n].known ==> D.Scratch(w, seen, n).Failed?
    ensures (exists j :: j in w.inputs[n] && j < |w.nodes| && D.Scratch(w, seen, j).Failed?) ==>
              D.Scratch(w, seen, n).Failed?
  {
    hide D.View;
    if exists j :: j in w.inputs[n] && j < |w.nodes| && D.Scratch(w, seen, j).Failed? {
      var j :| j in w.inputs[n] && j < |w.nodes| && D.Scratch(w, seen, j).Failed?;
      var k :| 0 <= k < |w.inputs[n]| && w.inputs[n][k] == j;
      assert D.ScratchInput(w, seen, n, k).Failed?;
    }
  }

  /** It fails when an argument it computes does. */
  lemma FailsWithArgument(w: D.Wiring, seen: D.Seen, n: nat, i: nat)
    requires D.Wired(w) && |seen| == |w.nodes| && n < |w.nodes| && i < |w.nodes[n].arguments|
    requires PassedBy(w.host, w.nodes[n].arguments[i], D.View(w, seen, n, |w.inputs[n]|)).Failed?
    ensures D.Scratch(w, seen, n).Failed?
  {
    hide D.View, D.ScratchInput;
    OneFails(w.host, w.nodes[n].arguments, D.View(w, seen, n, |w.inputs[n]|), i);
  }

  lemma {:induction false} OneFails(h: Host, arguments: seq<Argument>, m: Memory, i: nat)
    requires i < |arguments| && PassedBy(h, arguments[i], m).Failed?
    ensures PassedAll(h, arguments, m).AnyFailed?
    decreases |arguments|
  {
    if i < |arguments| - 1 {
      OneFails(h, arguments[..|arguments| - 1], m, i);
    }
  }

  /**
   Of the nodes whose arguments read cells, one evaluated since `start` called
   its function once if what it takes is not what it last passed with success,
   and else not at all; one not evaluated called nothing.
   */
  lemma CalledOnOtherValues(w: D.Wiring, seen: D.Seen, start: seq<D.Cache>, caches: seq<D.Cache>, anew: set<nat>,
                            n: nat, values: seq<Value>)
    requires D.Wired(w) && D.CallsRight(w, seen, start, caches, anew) && n < |w.nodes| && !D.InputFails(w, seen, n)
    requires w.nodes[n].known && |values| == |w.nodes[n].arguments|
    requires forall i :: 0 <= i < |values| ==> D.Takes(w, seen, n, i, values[i])
    ensures caches[n].calls == start[n].calls + if n in anew && start[n].arguments != Some(values) then 1 else 0
  {
    hide D.View, D.Scratch, D.ScratchInput, D.Takes, D.InputFails, PassedAll;
    var view := D.View(w, seen, n, |w.inputs[n]|);
    PassedEach(w.host, w.nodes[n].arguments, view, values);
    forall i | 0 <= i < |values| ensures PassedBy(w.host, w.nodes[n].arguments[i], view) == Gives(values[i]) {
      D.TakenIsPassed(w, seen, n, i, values[i]);
    }
    assert D.CallRightAt(w, seen, start, caches, n in anew, n);
  }

  // Nodes with state.

  /** The last report of a port. */
  predicate LastOfPort(mutated: seq<(Uuid, Value)>, i: nat, port: Uuid) {
    i < |mutated| && mutated[i].0 == port && forall j :: i < j < |mutated| ==> mutated[j].0 != port
  }

  lemma {:induction false} LastIsReported(mutated: seq<(Uuid, Value)>, i: nat, port: Uuid)
    requires LastOfPort(mutated, i, port)
    ensures S.LastReport(mutated, port) == Some(mutated[i].1)
    decreases |mutated|
  {
    if i < |mutated| - 1 {
      LastIsReported(mutated[..|mutated| - 1], i, port);
    }
  }

  lemma {:induction false} NoneIsReported(mutated: seq<(Uuid, Value)>, port: Uuid)
    requires forall j :: 0 <= j < |mutated| ==> mutated[j].0 != port
    ensures S.LastReport(mutated, port) == None
    decreases |mutated|
  {
    if mutated != [] {
      NoneIsReported(mutated[..|mutated| - 1], port);
    }
  }

  /** What an output takes from a call: the last value reported for its port; else,
      for the return, what was returned; else what its parameter was passed. */
  lemma OutputTakes(n: S.Stateful, values: seq<Value>, ran: S.Ran, results: map<Uuid, Value>, o: S.Output, i: nat)
    requires S.WellFormed(n) && S.Results(n, values, ran, results) && o in n.outputs
    ensures LastOfPort(ran.mutated, i, o.port) ==> o.port in results && results[o.port] == ran.mutated[i].1
    ensures (forall j :: 0 <= j < |ran.mutated| ==> ran.mutated[j].0 != o.port) && o.port == RETURN_PORT ==>
              o.port in results && results[o.port] == ran.ret
    ensures (forall j :: 0 <= j < |ran.mutated| ==> ran.mutated[j].0 != o.port) && i < |n.parameters|
            && o.port == n.parameters[i] ==>
              o.port in results && results[o.port] == values[i]
  {
    hide S.LastReport, S.PassedFor;
    if LastOfPort(ran.mutated, i, o.port) {
      LastIsReported(ran.mutated, i, o.port);
    }
    if forall j :: 0 <= j < |ran.mutated| ==> ran.mutated[j].0 != o.port {
      NoneIsReported(ran.mutated, o.port);
      if i < |n.parameters| && o.port == n.parameters[i] {
        S.PassedIsLast(n.parameters, values, i);
      }
    }
  }

  /** A parameter kept in a key finds what the key holds; a cell no such parameter
      has is as it was. */
  lemma {:induction false} LoadsFromKey(outputs: seq<S.Output>, m: Memory, o: S.Output)
    requires S.Apart(outputs) && o in outputs
    ensures Held(S.Loading(outputs, m), o.cell)
            == if o.port != RETURN_PORT && o.publish.Some? then Held(m, Stored(o.publish.value)) else Held(m, o.cell)
    decreases |outputs|
  {
    var init, last := outputs[..|outputs| - 1], outputs[|outputs| - 1];
    if o in init {
      LoadsFromKey(init, m, o);
      assert last.cell != o.cell;
    } else {
      assert o == last;
      OthersHaveOthers(outputs);
      S.LoadingElsewhere(init, m, o.cell);
      KeysAreNotLoaded(init, m, o.publish);
    }
  }

  lemma OthersHaveOthers(outputs: seq<S.Output>)
    requires S.Apart(outputs) && outputs != []
    ensures forall o :: o in outputs[..|outputs| - 1] ==> o.cell != outputs[|outputs| - 1].cell
  {
  }

  lemma KeysAreNotLoaded(outputs: seq<S.Output>, m: Memory, publish: Option<string>)
    requires S.Apart(outputs)
    ensures publish.Some? ==> Held(S.Loading(outputs, m), Stored(publish.value)) == Held(m, Stored(publish.value))
  {
    if publish.Some? {
      S.LoadingElsewhere(outputs, m, Stored(publish.value));
    }
  }

  /** After a tick that succeeds each port, and its key, holds what its output took,
      as it is written back. */
  lemma WrittenAndPublished(n: S.Stateful, results: map<Uuid, Value>, m: Memory, o: S.Output)
    requires S.Apart(n.outputs) && o in n.outputs && o.port in results
    ensures var after := S.Publishing(n.outputs, results, S.Writing(n.outputs, results, m));
            && Held(after, o.cell) == WrittenBack(results[o.port], o.optional)
            && (o.publish.Some? ==> Held(after, Stored(o.publish.value)) == WrittenBack(results[o.port], o.optional))
  {
    var written := S.Writing(n.outputs, results, m);
    S.WritingLeaves(n.outputs, results, m, o);
    forall other | other in n.outputs && other.publish.Some? ensures S.Home(other) != o.cell {
    }
    S.PublishingElsewhere(n.outputs, results, written, o.cell);
    if o.publish.Some? {
      S.PublishingHolds(n.outputs, results, written, o);
    }
  }
}
