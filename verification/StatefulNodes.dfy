/**
 A detached node whose function changes parameters in place: its state, in
 cells or in store keys.  `Fresh` is what it does when it is always called.
 */
module StatefulNodes {
  import opened Integers
  import opened Graphs
  import opened Expressions

  /** A port the node writes, in its cell and to the key it is published to. */
  datatype Output = Output(port: Uuid, cell: Cell, publish: Option<string>, optional: bool)

  /** A node as lowered: its arguments by parameter, and what it writes, the
      return first. */
  datatype Stateful = Stateful(
    function_: Uuid,
    known: bool,
    parameters: seq<Uuid>,
    arguments: seq<Argument>,
    outputs: seq<Output>)

  datatype Ran = Refused | Ran(ret: Value, mutated: seq<(Uuid, Value)>)

  /** The functions a device answers: what each returns, and which parameters it
      reports changed. */
  datatype Bench = Bench(host: Host, run: (Uuid, seq<Value>) -> Ran)

  predicate WellFormed(n: Stateful) {
    && |n.parameters| == |n.arguments| && RETURN_PORT !in n.parameters
    && (forall i, j :: 0 <= i < j < |n.parameters| ==> n.parameters[i] != n.parameters[j])
    && (forall i :: 0 <= i < |n.outputs| ==> n.outputs[i].cell.Local?)
    && (forall i :: 0 <= i < |n.outputs| ==> n.outputs[i].port == RETURN_PORT || n.outputs[i].port in n.parameters)
    && |n.outputs| > 0 && n.outputs[0].port == RETURN_PORT
    && (forall i, j :: 0 <= i < j < |n.outputs| ==> n.outputs[i].port != n.outputs[j].port)
  }

  /** A parameter kept in a key is loaded from it before the node reads. */
  predicate Loads(o: Output) {
    o.port != RETURN_PORT && o.publish.Some?
  }

  predicate Rewrites(n: Stateful) {
    exists o :: o in n.outputs && Loads(o)
  }

  predicate IsPort(outputs: seq<Output>, port: Uuid) {
    exists o :: o in outputs && o.port == port
  }

  // What a call leaves in each port.

  /** The last value reported for a parameter. */
  function LastReport(mutated: seq<(Uuid, Value)>, port: Uuid): Option<Value> {
    if mutated == [] then None
    else if mutated[|mutated| - 1].0 == port then Some(mutated[|mutated| - 1].1)
    else LastReport(mutated[..|mutated| - 1], port)
  }

  /** What a parameter was passed. */
  function PassedFor(parameters: seq<Uuid>, values: seq<Value>, port: Uuid): Option<Value>
    requires |values| == |parameters|
  {
    if parameters == [] then None
    else if parameters[|parameters| - 1] == port then Some(values[|values| - 1])
    else PassedFor(parameters[..|parameters| - 1], values[..|values| - 1], port)
  }

  /** A port's value after a call: as reported, or what was returned, or for a
      parameter that is not reported what it was passed. */
  function PortValue(n: Stateful, values: seq<Value>, ret: Value, mutated: seq<(Uuid, Value)>, port: Uuid)
    : Option<Value>
    requires |values| == |n.parameters|
  {
    if LastReport(mutated, port).Some? then LastReport(mutated, port)
    else if port == RETURN_PORT then Some(ret)
    else PassedFor(n.parameters, values, port)
  }

  /** What the outputs take from a call. */
  ghost predicate Results(n: Stateful, values: seq<Value>, ran: Ran, results: map<Uuid, Value>) {
    ran.Ran? && |values| == |n.parameters|
    && forall o :: o in n.outputs ==> Entry(results, o.port) == PortValue(n, values, ran.ret, ran.mutated, o.port)
  }

  function Entry(results: map<Uuid, Value>, port: Uuid): Option<Value> {
    if port in results then Some(results[port]) else None
  }

  lemma {:induction false} PassedIsLast(parameters: seq<Uuid>, values: seq<Value>, i: nat)
    requires |values| == |parameters| && i < |parameters|
    requires forall j, k :: 0 <= j < k < |parameters| ==> parameters[j] != parameters[k]
    ensures PassedFor(parameters, values, parameters[i]) == Some(values[i])
    decreases |parameters|
  {
    if i < |parameters| - 1 {
      PassedIsLast(parameters[..|parameters| - 1], values[..|values| - 1], i);
    }
  }

  /** The passed values of the ports, then the return, then what is reported. */
  method Collect(n: Stateful, values: seq<Value>, ret: Value, mutated: seq<(Uuid, Value)>)
    returns (results: map<Uuid, Value>)
    requires WellFormed(n) && |values| == |n.parameters|
    ensures Results(n, values, Ran(ret, mutated), results)
  {
    results := map[];
    if |n.outputs| > 1 {
      for i := 0 to |n.parameters|
        invariant forall port :: IsPort(n.outputs, port) && port != RETURN_PORT ==>
                    Entry(results, port) == PassedFor(n.parameters[..i], values[..i], port)
      {
        assert n.parameters[..i + 1][..i] == n.parameters[..i] && values[..i + 1][..i] == values[..i];
        if IsPort(n.outputs, n.parameters[i]) {
          results := results[n.parameters[i] := values[i]];
        }
      }
      assert n.parameters[..|n.parameters|] == n.parameters && values[..|values|] == values;
    }
    results := results[RETURN_PORT := ret];
    ghost var before := results;
    for i := 0 to |mutated|
      invariant forall port :: Entry(results, port)
                  == if LastReport(mutated[..i], port).Some? then LastReport(mutated[..i], port)
                     else Entry(before, port)
    {
      assert mutated[..i + 1][..i] == mutated[..i];
      results := results[mutated[i].0 := mutated[i].1];
    }
    assert mutated[..|mutated|] == mutated;
  }

  // The cells and the keys.

  /** Each parameter kept in a key, loaded from it. */
  function Loading(outputs: seq<Output>, m: Memory): Memory {
    if outputs == [] then m
    else
      var before, last := Loading(outputs[..|outputs| - 1], m), outputs[|outputs| - 1];
      if Loads(last) then Holding(before, last.cell, Held(before, Stored(last.publish.value))) else before
  }

  /** The ports written in turn. */
  function Writing(outputs: seq<Output>, results: map<Uuid, Value>, m: Memory): Memory {
    if outputs == [] then m
    else
      var before, last := Writing(outputs[..|outputs| - 1], results, m), outputs[|outputs| - 1];
      if last.port in results then Holding(before, last.cell, WrittenBack(results[last.port], last.optional))
      else before
  }

  /** The keys written in turn. */
  function Publishing(outputs: seq<Output>, results: map<Uuid, Value>, m: Memory): Memory {
    if outputs == [] then m
    else
      var before, last := Publishing(outputs[..|outputs| - 1], results, m), outputs[|outputs| - 1];
      if last.publish.Some? && last.port in results
      then Holding(before, Stored(last.publish.value), WrittenBack(results[last.port], last.optional)) else before
  }

  /** What writing the ports leaves in a cell: what the last of them that is it
      wrote, or what was there. */
  function LastWrite(outputs: seq<Output>, results: map<Uuid, Value>, cell: Cell, held: Option<Value>): Option<Value> {
    if outputs == [] then held
    else
      var last := outputs[|outputs| - 1];
      if last.port in results && last.cell == cell then WrittenBack(results[last.port], last.optional)
      else LastWrite(outputs[..|outputs| - 1], results, cell, held)
  }

  lemma {:induction false} WritingHolds(outputs: seq<Output>, results: map<Uuid, Value>, m: Memory, cell: Cell)
    ensures Held(Writing(outputs, results, m), cell) == LastWrite(outputs, results, cell, Held(m, cell))
    decreases |outputs|
  {
    if outputs != [] {
      WritingHolds(outputs[..|outputs| - 1], results, m, cell);
    }
  }

  lemma {:induction false} LastWriteTwice(outputs: seq<Output>, results: map<Uuid, Value>, cell: Cell,
                                          held: Option<Value>)
    ensures LastWrite(outputs, results, cell, LastWrite(outputs, results, cell, held))
            == LastWrite(outputs, results, cell, held)
    decreases |outputs|
  {
    if outputs != [] {
      LastWriteTwice(outputs[..|outputs| - 1], results, cell, held);
      LastWriteSplits(outputs, results, cell, held);
    }
  }

  /** A last write is of an output or leaves what was there. */
  lemma {:induction false} LastWriteSplits(outputs: seq<Output>, results: map<Uuid, Value>, cell: Cell,
                                           held: Option<Value>)
    ensures (forall o :: o in outputs && o.cell == cell ==> o.port !in results) ==>
              forall h :: LastWrite(outputs, results, cell, h) == h
    ensures (exists o :: o in outputs && o.cell == cell && o.port in results) ==>
              forall h :: LastWrite(outputs, results, cell, h) == LastWrite(outputs, results, cell, held)
    decreases |outputs|
  {
    if outputs != [] {
      var init := outputs[..|outputs| - 1];
      LastWriteSplits(init, results, cell, held);
    }
  }

  lemma SameCells(a: Memory, b: Memory)
    requires forall cell :: Held(a, cell) == Held(b, cell)
    ensures a == b
  {
    forall cell ensures (cell in a <==> cell in b) && (cell in a ==> a[cell] == b[cell]) {
      assert Held(a, cell) == Held(b, cell);
    }
  }

  /** Written again, the ports are as they were. */
  lemma WritingTwice(outputs: seq<Output>, results: map<Uuid, Value>, m: Memory)
    ensures Writing(outputs, results, Writing(outputs, results, m)) == Writing(outputs, results, m)
  {
    var once := Writing(outputs, results, m);
    forall cell ensures Held(Writing(outputs, results, once), cell) == Held(once, cell) {
      WritingHolds(outputs, results, m, cell);
      WritingHolds(outputs, results, once, cell);
      LastWriteTwice(outputs, results, cell, Held(m, cell));
    }
    SameCells(Writing(outputs, results, once), once);
  }

  // An evaluation.

  /** What evaluating the node does when it is always called. */
  ghost predicate Fresh(b: Bench, n: Stateful, m: Memory, ok: bool, after: Memory) {
    var loaded := Loading(n.outputs, m);
    var passed := PassedAll(b.host, n.arguments, loaded);
    if passed.AnyFailed? || !n.known || b.run(n.function_, passed.values).Refused? then !ok && after == loaded
    else
      ok && exists results :: Results(n, passed.values, b.run(n.function_, passed.values), results)
                              && after == Writing(n.outputs, results, loaded)
  }

  /** The last call the node keeps is one the function answers so, and where
      nothing else writes its ports they hold what it wrote. */
  ghost predicate Keeps(b: Bench, n: Stateful, m: Memory, arguments: Option<seq<Value>>, outputs: map<Uuid, Value>) {
    arguments.Some? ==>
      && n.known && Results(n, arguments.value, b.run(n.function_, arguments.value), outputs)
      && (!Rewrites(n) ==> Writing(n.outputs, outputs, m) == m)
  }

  /** Others may write any cell but the ports, and those too if they are
      written again. */
  lemma OthersMayWrite(b: Bench, n: Stateful, before: Memory, after: Memory, arguments: Option<seq<Value>>,
                       outputs: map<Uuid, Value>)
    requires Keeps(b, n, before, arguments, outputs)
    requires Rewrites(n) || Agree(before, after, set o | o in n.outputs :: o.cell)
    ensures Keeps(b, n, after, arguments, outputs)
  {
    if arguments.Some? && !Rewrites(n) {
      forall cell ensures Held(Writing(n.outputs, outputs, after), cell) == Held(after, cell) {
        WritingHolds(n.outputs, outputs, before, cell);
        WritingHolds(n.outputs, outputs, after, cell);
        LastWriteSplits(n.outputs, outputs, cell, Held(before, cell));
        if exists o :: o in n.outputs && o.cell == cell {
          assert cell in set o | o in n.outputs :: o.cell;
        }
      }
      SameCells(Writing(n.outputs, outputs, after), after);
    }
  }

  /** A node that loads nothing finds the cells as they are. */
  lemma {:induction false} LoadsNothing(outputs: seq<Output>, m: Memory)
    requires forall o :: o in outputs ==> !Loads(o)
    ensures Loading(outputs, m) == m
    decreases |outputs|
  {
    if outputs != [] {
      LoadsNothing(outputs[..|outputs| - 1], m);
    }
  }

  lemma LoadingKeeps(b: Bench, n: Stateful, m: Memory, arguments: Option<seq<Value>>, outputs: map<Uuid, Value>)
    requires Keeps(b, n, m, arguments, outputs)
    ensures Keeps(b, n, Loading(n.outputs, m), arguments, outputs)
  {
    if !Rewrites(n) {
      LoadsNothing(n.outputs, m);
    }
  }

  /** The outputs of the last call again are those of a call anew. */
  lemma ReusedIsFresh(b: Bench, n: Stateful, m: Memory, arguments: Option<seq<Value>>, outputs: map<Uuid, Value>)
    requires arguments.Some? && Keeps(b, n, Loading(n.outputs, m), arguments, outputs)
    requires PassedAll(b.host, n.arguments, Loading(n.outputs, m)) == AllGive(arguments.value)
    ensures Fresh(b, n, m, true, Writing(n.outputs, outputs, Loading(n.outputs, m)))
  {
    assert Results(n, arguments.value, b.run(n.function_, arguments.value), outputs);
  }

  lemma {:induction false} PassedCounts(h: Host, arguments: seq<Argument>, m: Memory)
    ensures PassedAll(h, arguments, m).AllGive? ==> |PassedAll(h, arguments, m).values| == |arguments|
    decreases |arguments|
  {
    if arguments != [] {
      PassedCounts(h, arguments[..|arguments| - 1], m);
    }
  }

  // Until the state settles.

  function Home(o: Output): Cell {
    if o.publish.Some? then Stored(o.publish.value) else o.cell
  }

  ghost function Homes(n: Stateful): set<Cell> {
    (set o | o in n.outputs :: o.cell) + (set o | o in n.outputs :: Home(o))
  }

  /** No two ports share a cell or a key. */
  predicate Apart(outputs: seq<Output>) {
    && (forall i :: 0 <= i < |outputs| ==> outputs[i].cell.Local?)
    && (forall i, j :: 0 <= i < j < |outputs| ==> outputs[i].cell != outputs[j].cell)
    && (forall i, j :: 0 <= i < j < |outputs| && outputs[i].publish.Some? ==> outputs[i].publish != outputs[j].publish)
  }

  /** Each parameter the node changes is read from its key, or from its cell if
      it has none; no other argument reads what the node writes. */
  ghost predicate Plain(n: Stateful) {
    WellFormed(n) && Apart(n.outputs) && forall i :: 0 <= i < |n.arguments| ==> PlainAt(n, i)
  }

  ghost predicate PlainAt(n: Stateful, i: nat)
    requires i < |n.arguments| == |n.parameters|
  {
    if IsPort(n.outputs, n.parameters[i])
    then exists o :: o in n.outputs && ReadsHome(n, i, o)
    else SourceCells(n.arguments[i].source) !! Homes(n)
  }

  predicate ReadsHome(n: Stateful, i: nat, o: Output)
    requires i < |n.arguments| == |n.parameters|
  {
    o.port == n.parameters[i] && n.arguments[i] == Argument(o.optional, FromCell(Some(Home(o))))
  }

  /** What a port passes when it is read after it was written. */
  function PassedAfter(o: Output, results: map<Uuid, Value>): Value
    requires o.port in results
  {
    ArgumentValue(WrittenBack(results[o.port], o.optional), o.optional)
  }

  lemma {:induction false} LoadingElsewhere(outputs: seq<Output>, m: Memory, cell: Cell)
    requires forall o :: o in outputs && Loads(o) ==> o.cell != cell
    ensures Held(Loading(outputs, m), cell) == Held(m, cell)
    decreases |outputs|
  {
    if outputs != [] {
      LoadingElsewhere(outputs[..|outputs| - 1], m, cell);
    }
  }

  lemma {:induction false} PublishingElsewhere(outputs: seq<Output>, results: map<Uuid, Value>, m: Memory, cell: Cell)
    requires forall o :: o in outputs && o.publish.Some? ==> Home(o) != cell
    ensures Held(Publishing(outputs, results, m), cell) == Held(m, cell)
    decreases |outputs|
  {
    if outputs != [] {
      PublishingElsewhere(outputs[..|outputs| - 1], results, m, cell);
    }
  }

  lemma {:induction false} PublishingHolds(outputs: seq<Output>, results: map<Uuid, Value>, m: Memory, o: Output)
    requires Apart(outputs) && o in outputs && o.publish.Some? && o.port in results
    ensures Held(Publishing(outputs, results, m), Home(o)) == WrittenBack(results[o.port], o.optional)
    decreases |outputs|
  {
    var init, last := outputs[..|outputs| - 1], outputs[|outputs| - 1];
    if o in init {
      PublishingHolds(init, results, m, o);
      assert last.publish != o.publish;
    }
  }

  lemma {:induction false} WritingLeaves(outputs: seq<Output>, results: map<Uuid, Value>, m: Memory, o: Output)
    requires Apart(outputs) && o in outputs && o.port in results
    ensures Held(Writing(outputs, results, m), o.cell) == WrittenBack(results[o.port], o.optional)
    decreases |outputs|
  {
    var init, last := outputs[..|outputs| - 1], outputs[|outputs| - 1];
    if o in init {
      WritingLeaves(init, results, m, o);
      assert last.cell != o.cell;
    }
  }

  /** Each parameter is left as it was passed. */
  ghost predicate Settles(n: Stateful, values: seq<Value>, results: map<Uuid, Value>)
    requires |values| == |n.parameters|
  {
    forall o :: o in n.outputs && o.port != RETURN_PORT ==>
      o.port in results && Some(PassedAfter(o, results)) == PassedFor(n.parameters, values, o.port)
  }

  /** The cells at the next evaluation, if nothing else writes them. */
  function NextLoaded(n: Stateful, results: map<Uuid, Value>, loaded: Memory): Memory {
    Loading(n.outputs, Publishing(n.outputs, results, Writing(n.outputs, results, loaded)))
  }

  lemma NextHome(n: Stateful, results: map<Uuid, Value>, loaded: Memory, o: Output)
    requires Plain(n) && o in n.outputs && o.port != RETURN_PORT && o.port in results
    ensures Held(NextLoaded(n, results, loaded), Home(o)) == WrittenBack(results[o.port], o.optional)
  {
    var written := Writing(n.outputs, results, loaded);
    var published := Publishing(n.outputs, results, written);
    LoadingElsewhere(n.outputs, published, Home(o));
    if o.publish.Some? {
      PublishingHolds(n.outputs, results, written, o);
    } else {
      PublishingElsewhere(n.outputs, results, written, o.cell);
      WritingLeaves(n.outputs, results, loaded, o);
    }
  }

  lemma NextElsewhere(n: Stateful, results: map<Uuid, Value>, loaded: Memory, cell: Cell)
    requires cell !in Homes(n)
    ensures Held(NextLoaded(n, results, loaded), cell) == Held(loaded, cell)
  {
    var written := Writing(n.outputs, results, loaded);
    forall o | o in n.outputs ensures o.cell != cell && Home(o) != cell {
      assert o.cell in Homes(n) && Home(o) in Homes(n);
    }
    LoadingElsewhere(n.outputs, Publishing(n.outputs, results, written), cell);
    PublishingElsewhere(n.outputs, results, written, cell);
    WritingHolds(n.outputs, results, loaded, cell);
    LastWriteSplits(n.outputs, results, cell, Held(loaded, cell));
  }

  lemma {:induction false} AllPass(h: Host, arguments: seq<Argument>, m: Memory)
    requires forall i :: 0 <= i < |arguments| ==> PassedBy(h, arguments[i], m).Gives?
    ensures PassedAll(h, arguments, m).AllGive?
    decreases |arguments|
  {
    if arguments != [] {
      AllPass(h, arguments[..|arguments| - 1], m);
    }
  }

  /** An argument that is no port passes again what it passed. */
  lemma NextPassesAgain(b: Bench, n: Stateful, results: map<Uuid, Value>, loaded: Memory, i: nat)
    requires Plain(n) && i < |n.arguments| && !IsPort(n.outputs, n.parameters[i])
    ensures PassedBy(b.host, n.arguments[i], NextLoaded(n, results, loaded)) == PassedBy(b.host, n.arguments[i], loaded)
  {
    hide NextLoaded;
    var next, source := NextLoaded(n, results, loaded), n.arguments[i].source;
    assert PlainAt(n, i);
    forall cell | cell in SourceCells(source) ensures Held(next, cell) == Held(loaded, cell) {
      NextElsewhere(n, results, loaded, cell);
    }
    if source.Computed? {
      ComputeAgrees(b.host, source.expression, next, loaded);
    }
  }

  /** A parameter the node changes passes next what the call left in it. */
  lemma PortPassesResult(b: Bench, n: Stateful, loaded: Memory, values: seq<Value>, results: map<Uuid, Value>, i: nat,
                         o: Output)
    requires Plain(n) && |values| == |n.parameters| && i < |n.arguments| && o in n.outputs && ReadsHome(n, i, o)
    requires Results(n, values, b.run(n.function_, values), results)
    ensures o.port != RETURN_PORT && o.port in results && PassedFor(n.parameters, values, o.port) == Some(values[i])
    ensures PassedBy(b.host, n.arguments[i], NextLoaded(n, results, loaded)) == Gives(PassedAfter(o, results))
  {
    hide NextLoaded;
    PassedIsLast(n.parameters, values, i);
    NextHome(n, results, loaded, o);
  }

  /** Where a port of the node is read. */
  lemma PortIsRead(n: Stateful, o: Output) returns (i: nat)
    requires Plain(n) && o in n.outputs && o.port != RETURN_PORT
    ensures i < |n.arguments| && ReadsHome(n, i, o)
  {
    i :| 0 <= i < |n.parameters| && n.parameters[i] == o.port;
    assert PlainAt(n, i);
    var other :| other in n.outputs && ReadsHome(n, i, other);
  }

  lemma NextPasses(b: Bench, n: Stateful, loaded: Memory, values: seq<Value>, results: map<Uuid, Value>)
    requires Plain(n) && PassedAll(b.host, n.arguments, loaded) == AllGive(values) && |values| == |n.parameters|
    requires Results(n, values, b.run(n.function_, values), results)
    ensures PassedAll(b.host, n.arguments, NextLoaded(n, results, loaded)).AllGive?
  {
    hide NextLoaded, Results, PassedFor;
    var next := NextLoaded(n, results, loaded);
    PassedEach(b.host, n.arguments, loaded, values);
    forall i | 0 <= i < |n.arguments| ensures PassedBy(b.host, n.arguments[i], next).Gives? {
      if IsPort(n.outputs, n.parameters[i]) {
        assert PlainAt(n, i);
        var o :| o in n.outputs && ReadsHome(n, i, o);
        PortPassesResult(b, n, loaded, values, results, i, o);
      } else {
        NextPassesAgain(b, n, results, loaded, i);
      }
    }
    AllPass(b.host, n.arguments, next);
  }

  /** Publishing writes no port. */
  lemma PublishingKeeps(b: Bench, n: Stateful, m: Memory, arguments: Option<seq<Value>>, outputs: map<Uuid, Value>)
    requires WellFormed(n) && Keeps(b, n, m, arguments, outputs)
    ensures Keeps(b, n, Publishing(n.outputs, outputs, m), arguments, outputs)
  {
    hide Keeps;
    var after := Publishing(n.outputs, outputs, m);
    forall cell | cell in set o | o in n.outputs :: o.cell ensures Held(m, cell) == Held(after, cell) {
      PublishingElsewhere(n.outputs, outputs, m, cell);
    }
    OthersMayWrite(b, n, m, after, arguments, outputs);
  }

  /**
   Left alone, a node is passed again what it was passed, and so not called,
   exactly when the call left each parameter as it was passed: a node whose
   state moved is called again, and one whose state settled is not.
   */
  lemma CalledUntilSettled(b: Bench, n: Stateful, loaded: Memory, values: seq<Value>, results: map<Uuid, Value>)
    requires Plain(n) && PassedAll(b.host, n.arguments, loaded) == AllGive(values) && |values| == |n.parameters|
    requires Results(n, values, b.run(n.function_, values), results)
    ensures PassedAll(b.host, n.arguments, NextLoaded(n, results, loaded)) == AllGive(values)
            <==> Settles(n, values, results)
    ensures PassedAll(b.host, n.arguments, NextLoaded(n, results, loaded)).AllGive?
  {
    hide NextLoaded, Results, PassedFor;
    NextPasses(b, n, loaded, values, results);
    var next := NextLoaded(n, results, loaded);
    PassedEach(b.host, n.arguments, loaded, values);
    PassedEach(b.host, n.arguments, next, values);
    if PassedAll(b.host, n.arguments, next) == AllGive(values) {
      forall o | o in n.outputs && o.port != RETURN_PORT
        ensures o.port in results && Some(PassedAfter(o, results)) == PassedFor(n.parameters, values, o.port)
      {
        var i := PortIsRead(n, o);
        PortPassesResult(b, n, loaded, values, results, i, o);
      }
    }
    if Settles(n, values, results) {
      forall i | 0 <= i < |n.arguments| ensures PassedBy(b.host, n.arguments[i], next) == Gives(values[i]) {
        if IsPort(n.outputs, n.parameters[i]) {
          assert PlainAt(n, i);
          var o :| o in n.outputs && ReadsHome(n, i, o);
          PortPassesResult(b, n, loaded, values, results, i, o);
        } else {
          NextPassesAgain(b, n, results, loaded, i);
        }
      }
    }
  }

  class Evaluator {
    const b: Bench
    const n: Stateful
    var memory: Memory
    /** What the last successful call was passed, and what its outputs took. */
    var arguments: Option<seq<Value>>
    var outputs: map<Uuid, Value>
    var calls: nat

    ghost predicate Valid()
      reads this
    {
      WellFormed(n) && Keeps(b, n, memory, arguments, outputs)
    }

    /** Whether an evaluation now would call the function. */
    ghost predicate WouldCall()
      reads this
    {
      var passed := PassedAll(b.host, n.arguments, Loading(n.outputs, memory));
      passed.AllGive? && n.known && Some(passed.values) != arguments
    }

    constructor (b: Bench, n: Stateful, m: Memory)
      requires WellFormed(n)
      ensures Valid() && this.b == b && this.n == n && memory == m && arguments.None? && calls == 0
    {
      this.b, this.n, memory, arguments, outputs, calls := b, n, m, None, map[], 0;
    }

    /** The ports kept in keys loaded from them. */
    method Load()
      modifies this`memory
      ensures memory == Loading(n.outputs, old(memory))
    {
      for i := 0 to |n.outputs|
        invariant memory == Loading(n.outputs[..i], old(memory))
      {
        assert n.outputs[..i + 1][..i] == n.outputs[..i];
        var o := n.outputs[i];
        if Loads(o) {
          memory := Holding(memory, o.cell, Held(memory, Stored(o.publish.value)));
        }
      }
      assert n.outputs[..|n.outputs|] == n.outputs;
    }

    /** The ports written. */
    method Write(results: map<Uuid, Value>)
      modifies this`memory
      ensures memory == Writing(n.outputs, results, old(memory))
    {
      for i := 0 to |n.outputs|
        invariant memory == Writing(n.outputs[..i], results, old(memory))
      {
        assert n.outputs[..i + 1][..i] == n.outputs[..i];
        var o := n.outputs[i];
        if o.port in results {
          memory := Holding(memory, o.cell, WrittenBack(results[o.port], o.optional));
        }
      }
      assert n.outputs[..|n.outputs|] == n.outputs;
    }

    /** The keys written, after the tree ticked. */
    method Publish()
      modifies this`memory
      ensures memory == Publishing(n.outputs, outputs, old(memory))
    {
      for i := 0 to |n.outputs|
        invariant memory == Publishing(n.outputs[..i], outputs, old(memory))
      {
        assert n.outputs[..i + 1][..i] == n.outputs[..i];
        var o := n.outputs[i];
        if o.publish.Some? && o.port in outputs {
          memory := Holding(memory, Stored(o.publish.value), WrittenBack(outputs[o.port], o.optional));
        }
      }
      assert n.outputs[..|n.outputs|] == n.outputs;
    }

    /** The outputs of the last call again, where others write the ports. */
    method Reuse()
      requires Valid() && arguments.Some?
      modifies this`memory
      ensures memory == Writing(n.outputs, outputs, old(memory)) && Valid()
    {
      hide Results;
      if Rewrites(n) {
        Write(outputs);
      }
    }

    /** Calls the function, writing its outputs and keeping the call if it
        succeeds. */
    method CallAnew(values: seq<Value>) returns (ok: bool)
      requires Valid() && n.known && |values| == |n.parameters|
      modifies this
      ensures Valid() && calls == old(calls) + 1 && ok == b.run(n.function_, values).Ran?
      ensures ok ==> arguments == Some(values) && Results(n, values, b.run(n.function_, values), outputs)
                     && memory == Writing(n.outputs, outputs, old(memory))
      ensures !ok ==> memory == old(memory) && arguments == old(arguments) && outputs == old(outputs)
    {
      hide Results, Rewrites;
      calls := calls + 1;
      var ran := b.run(n.function_, values);
      if ran.Refused? {
        return false;
      }
      var results := Collect(n, values, ran.ret, ran.mutated);
      WritingTwice(n.outputs, results, memory);
      Write(results);
      arguments, outputs := Some(values), results;
      ok := true;
    }

    /**
     An evaluation leaves the cells as calling the function anew does, and fails
     when that does; the function is called only if it would be passed other
     values than at its last successful call.
     */
    method Evaluate() returns (ok: bool)
      requires Valid()
      modifies this
      ensures Valid() && Fresh(b, n, old(memory), ok, memory)
      ensures calls == old(calls) + if old(WouldCall()) then 1 else 0
      ensures var passed := PassedAll(b.host, n.arguments, Loading(n.outputs, old(memory)));
              && (ok ==> passed.AllGive? && arguments == Some(passed.values)
                         && memory == Writing(n.outputs, outputs, Loading(n.outputs, old(memory))))
              && (!ok ==> arguments == old(arguments) && outputs == old(outputs))
    {
      hide Results;
      LoadingKeeps(b, n, memory, arguments, outputs);
      Load();
      if CellsOnly(n.arguments) && arguments.Some? {
        var same := ComparesInPlace(b.host, n.arguments, arguments.value, memory);
        if same {
          ReusedIsFresh(b, n, old(memory), arguments, outputs);
          Reuse();
          return true;
        }
      }
      var passed := PassedAll(b.host, n.arguments, memory);
      if passed.AnyFailed? {
        return false;
      }
      if arguments == Some(passed.values) {
        ReusedIsFresh(b, n, old(memory), arguments, outputs);
        Reuse();
        return true;
      }
      if !n.known {
        return false;
      }
      PassedCounts(b.host, n.arguments, memory);
      ok := CallAnew(passed.values);
    }

    /** One tick of a node that publishes: evaluated, and its keys written. */
    method Tick() returns (ok: bool)
      requires Valid()
      modifies this
      ensures Valid()
      ensures var loaded := Loading(n.outputs, old(memory));
              ok ==> arguments.Some? && Results(n, arguments.value, b.run(n.function_, arguments.value), outputs)
                     && PassedAll(b.host, n.arguments, loaded) == AllGive(arguments.value)
                     && memory == Publishing(n.outputs, outputs, Writing(n.outputs, outputs, loaded))
      ensures ok && Plain(n) ==> (WouldCall() <==> !Settles(n, arguments.value, outputs))
    {
      hide Results, Rewrites, PlainAt, Settles, Fresh;
      ok := Evaluate();
      if ok {
        PublishingKeeps(b, n, memory, arguments, outputs);
        Publish();
        if Plain(n) {
          PassedCounts(b.host, n.arguments, Loading(n.outputs, old(memory)));
          CalledUntilSettled(b, n, Loading(n.outputs, old(memory)), arguments.value, outputs);
        }
      }
    }
  }
}
