/** What an argument reads, what it passes, and what an output writes. */
module Expressions {
  import opened Integers
  import opened Graphs

  /** A cell: of the tree's own, known by its identity, or a store key. */
  datatype Cell = Local(identity: nat) | Stored(key: string)

  /** What the cells hold; a cell that is not there holds nothing. */
  type Memory = map<Cell, Value>

  datatype Outcome = Failed | Gives(value: Value)

  datatype Outcomes = AnyFailed | AllGive(values: seq<Value>)

  /** The functions a device answers and the paths it selects, which answer
      alike whenever they are asked alike. */
  datatype Host = Host(call: (Uuid, seq<Value>) -> Outcome, selects: (string, Value) -> Outcome)

  datatype Expression =
    | Constant(value: Value)
    | ReadCell(cell: Cell)
    | Selection(source: Expression, path: string)
    | Call(function_: Uuid, arguments: seq<Expression>)

  function Held(m: Memory, cell: Cell): Option<Value> {
    if cell in m then Some(m[cell]) else None
  }

  function Holding(m: Memory, cell: Cell, content: Option<Value>): Memory {
    if content.Some? then m[cell := content.value] else m - {cell}
  }

  /** The value of an expression; a selection from nothing is nothing. */
  function Compute(h: Host, e: Expression, m: Memory): Outcome
    decreases e, 0
  {
    match e
    case Constant(value) => Gives(value)
    case ReadCell(cell) => Gives(if cell in m then m[cell] else Unit)
    case Selection(source, path) =>
      var from := Compute(h, source, m);
      if from.Failed? || from.value.Unit? then from else h.selects(path, from.value)
    case Call(function_, arguments) =>
      var values := ComputeAll(h, arguments, m);
      if values.AnyFailed? then Failed else h.call(function_, values.values)
  }

  function ComputeAll(h: Host, es: seq<Expression>, m: Memory): Outcomes
    decreases es, 1
  {
    if es == [] then AllGive([])
    else
      var first := Compute(h, es[0], m);
      var rest := ComputeAll(h, es[1..], m);
      if first.Failed? || rest.AnyFailed? then AnyFailed else AllGive([first.value] + rest.values)
  }

  /** The cells an expression reads, at any depth. */
  function CellsRead(e: Expression): set<Cell>
    decreases e, 0
  {
    match e
    case Constant(_) => {}
    case ReadCell(cell) => {cell}
    case Selection(source, _) => CellsRead(source)
    case Call(_, arguments) => CellsReadBy(arguments)
  }

  function CellsReadBy(es: seq<Expression>): set<Cell>
    decreases es, 1
  {
    if es == [] then {} else CellsRead(es[0]) + CellsReadBy(es[1..])
  }

  /** The memories hold alike in `cells`. */
  ghost predicate Agree(a: Memory, b: Memory, cells: set<Cell>) {
    forall cell :: cell in cells ==> Held(a, cell) == Held(b, cell)
  }

  /** An expression's value depends on nothing but the cells it reads. */
  lemma {:induction false} ComputeAgrees(h: Host, e: Expression, a: Memory, b: Memory)
    requires Agree(a, b, CellsRead(e))
    ensures Compute(h, e, a) == Compute(h, e, b)
    decreases e, 0
  {
    match e
    case Constant(_) =>
    case ReadCell(cell) => assert Held(a, cell) == Held(b, cell);
    case Selection(source, _) => ComputeAgrees(h, source, a, b);
    case Call(_, arguments) => ComputeAllAgrees(h, arguments, a, b);
  }

  lemma {:induction false} ComputeAllAgrees(h: Host, es: seq<Expression>, a: Memory, b: Memory)
    requires Agree(a, b, CellsReadBy(es))
    ensures ComputeAll(h, es, a) == ComputeAll(h, es, b)
    decreases es, 1
  {
    if es != [] {
      ComputeAgrees(h, es[0], a, b);
      ComputeAllAgrees(h, es[1..], a, b);
    }
  }

  // Arguments and outputs.

  /** What an argument passes, from what it read: an optional parameter takes
      an option. */
  function ArgumentValue(value: Option<Value>, optional: bool): Value {
    match value
    case Some(v) => if v.Present? || v.Absent? || !optional then v else Present(v)
    case None => if optional then Absent else Unit
  }

  /** Whether a cell holds what the last call was passed, compared in place. */
  function HoldsArgument(held: Option<Value>, cached: Value, optional: bool): bool {
    match held
    case Some(v) =>
      if v.Present? || v.Absent? then cached == v
      else if optional then cached.Present? && cached.held == v
      else cached == v
    case None => if optional then cached.Absent? else cached.Unit?
  }

  /** Comparing in place compares what would be passed. */
  lemma HoldingIsPassing(held: Option<Value>, cached: Value, optional: bool)
    ensures HoldsArgument(held, cached, optional) <==> cached == ArgumentValue(held, optional)
  {
  }

  /** What a cell holds once `value` is written back: an optional output maps
      onto whether it holds anything. */
  function WrittenBack(value: Value, optional: bool): Option<Value> {
    if optional && value.Present? then Some(value.held)
    else if optional && value.Absent? then None
    else Some(value)
  }

  /** Where an argument's value comes from. */
  datatype ArgumentSource = FromCell(cell: Option<Cell>) | Computed(expression: Expression)

  datatype Argument = Argument(optional: bool, source: ArgumentSource)

  function SourceCells(source: ArgumentSource): set<Cell> {
    match source
    case FromCell(cell) => if cell.Some? then {cell.value} else {}
    case Computed(e) => CellsRead(e)
  }

  /** What an argument passes; a computed nothing is nothing read. */
  function PassedBy(h: Host, a: Argument, m: Memory): Outcome {
    match a.source
    case FromCell(cell) =>
      Gives(ArgumentValue(if cell.Some? then Held(m, cell.value) else None, a.optional))
    case Computed(e) =>
      var value := Compute(h, e, m);
      if value.Failed? then Failed
      else Gives(ArgumentValue(if value.value.Unit? then None else Some(value.value), a.optional))
  }

  function PassedAll(h: Host, arguments: seq<Argument>, m: Memory): Outcomes {
    if arguments == [] then AllGive([])
    else
      var before := PassedAll(h, arguments[..|arguments| - 1], m);
      var last := PassedBy(h, arguments[|arguments| - 1], m);
      if before.AnyFailed? || last.Failed? then AnyFailed else AllGive(before.values + [last.value])
  }

  function ArgumentCells(arguments: seq<Argument>): set<Cell> {
    set i, cell | 0 <= i < |arguments| && cell in SourceCells(arguments[i].source) :: cell
  }

  lemma {:induction false} PassedAgrees(h: Host, arguments: seq<Argument>, a: Memory, b: Memory)
    requires Agree(a, b, ArgumentCells(arguments))
    ensures PassedAll(h, arguments, a) == PassedAll(h, arguments, b)
    decreases |arguments|
  {
    if arguments != [] {
      var init, last := arguments[..|arguments| - 1], arguments[|arguments| - 1];
      forall cell | cell in ArgumentCells(init) ensures Held(a, cell) == Held(b, cell) {
        var i :| 0 <= i < |init| && cell in SourceCells(init[i].source);
        assert cell in SourceCells(arguments[i].source);
      }
      PassedAgrees(h, init, a, b);
      forall cell | cell in SourceCells(last.source) ensures Held(a, cell) == Held(b, cell) {
        assert cell in SourceCells(arguments[|arguments| - 1].source);
      }
      if last.source.Computed? {
        ComputeAgrees(h, last.source.expression, a, b);
      }
    }
  }

  /** Arguments pass values exactly when each passes its own. */
  lemma {:induction false} PassedEach(h: Host, arguments: seq<Argument>, m: Memory, values: seq<Value>)
    requires |values| == |arguments|
    ensures PassedAll(h, arguments, m) == AllGive(values) <==>
            forall i :: 0 <= i < |arguments| ==> PassedBy(h, arguments[i], m) == Gives(values[i])
    decreases |arguments|
  {
    if arguments != [] {
      var k := |arguments| - 1;
      PassedEach(h, arguments[..k], m, values[..k]);
      assert values == values[..k] + [values[k]];
    }
  }

  // What is passed and written, from the cells alone.

  /** A plain parameter is passed what its cell holds, an optional one an option
      of it, or the option it is; a cell that holds nothing passes nothing. */
  lemma CellIsPassed(h: Host, optional: bool, cell: Option<Cell>, m: Memory)
    ensures PassedBy(h, Argument(optional, FromCell(cell)), m)
            == if cell.Some? && cell.value in m then
                 var v := m[cell.value];
                 Gives(if !optional || v.Present? || v.Absent? then v else Present(v))
               else Gives(if optional then Absent else Unit)
  {
  }

  /** A computed argument passes what its expression gives, as a cell that held
      it would, or fails as it does. */
  lemma ComputedIsPassed(h: Host, optional: bool, e: Expression, cell: Cell, m: Memory)
    ensures var value, passed := Compute(h, e, m), PassedBy(h, Argument(optional, Computed(e)), m);
            && (value.Failed? ==> passed == Failed)
            && (value.Gives? && value.value == Unit ==> passed == Gives(if optional then Absent else Unit))
            && (value.Gives? && value.value != Unit ==>
                  passed == PassedBy(h, Argument(optional, FromCell(Some(cell))), m[cell := value.value]))
  {
  }

  /** What is written back is read back: an option by an optional parameter, any
      value by a plain one.  A value that is no option is read as present, an
      option of an option as the one it holds. */
  lemma WrittenReadsBack(h: Host, optional: bool, cell: Cell, value: Value, m: Memory)
    ensures PassedBy(h, Argument(optional, FromCell(Some(cell))), Holding(m, cell, WrittenBack(value, optional)))
            == Gives(if !optional || value.Absent? then value
                     else if !value.Present? then Present(value)
                     else if value.held.Present? || value.held.Absent? then value.held
                     else value)
    ensures forall other :: other != cell ==>
              Held(Holding(m, cell, WrittenBack(value, optional)), other) == Held(m, other)
  {
  }

  /** A literal is itself, a cell what it holds, and a selection what the path
      selects of its source, if that is anything. */
  lemma ExpressionGives(h: Host, value: Value, cell: Cell, source: Expression, path: string, m: Memory)
    ensures Compute(h, Constant(value), m) == Gives(value)
    ensures Compute(h, ReadCell(cell), m) == Gives(if cell in m then m[cell] else Unit)
    ensures var from := Compute(h, source, m);
            Compute(h, Selection(source, path), m)
            == if from == Failed || from == Gives(Unit) then from else h.selects(path, from.value)
  {
  }

  /** A call fails if an argument does, and otherwise gives what its function
      gives for each of them, in order. */
  lemma {:induction false} CallGives(h: Host, function_: Uuid, arguments: seq<Expression>, m: Memory,
                                     values: seq<Value>)
    requires |values| == |arguments|
    ensures (exists i :: 0 <= i < |arguments| && Compute(h, arguments[i], m) == Failed) ==>
              Compute(h, Call(function_, arguments), m) == Failed
    ensures (forall i :: 0 <= i < |arguments| ==> Compute(h, arguments[i], m) == Gives(values[i])) ==>
              Compute(h, Call(function_, arguments), m) == h.call(function_, values)
  {
    ComputesEach(h, arguments, m, values);
  }

  lemma {:induction false} ComputesEach(h: Host, es: seq<Expression>, m: Memory, values: seq<Value>)
    requires |values| == |es|
    ensures (exists i :: 0 <= i < |es| && Compute(h, es[i], m) == Failed) ==> ComputeAll(h, es, m) == AnyFailed
    ensures (forall i :: 0 <= i < |es| ==> Compute(h, es[i], m) == Gives(values[i])) ==>
              ComputeAll(h, es, m) == AllGive(values)
    decreases |es|
  {
    if es != [] {
      var rest := es[1..];
      ComputesEach(h, rest, m, values[1..]);
      forall i | 0 < i < |es| ensures es[i] == rest[i - 1] && values[i] == values[1..][i - 1] {
      }
      if forall i :: 0 <= i < |es| ==> Compute(h, es[i], m) == Gives(values[i]) {
        forall i | 0 <= i < |rest| ensures Compute(h, rest[i], m) == Gives(values[1..][i]) {
          assert rest[i] == es[i + 1];
        }
        assert [values[0]] + values[1..] == values;
      }
      if exists i :: 0 <= i < |es| && Compute(h, es[i], m) == Failed {
        var i :| 0 <= i < |es| && Compute(h, es[i], m) == Failed;
        if i > 0 {
          assert rest[i - 1] == es[i];
        }
      }
    }
  }

  predicate CellsOnly(arguments: seq<Argument>) {
    forall i :: 0 <= i < |arguments| ==> arguments[i].source.FromCell?
  }

  lemma {:induction false} CellsAlwaysPass(h: Host, arguments: seq<Argument>, m: Memory)
    requires CellsOnly(arguments)
    ensures PassedAll(h, arguments, m).AllGive?
    ensures |PassedAll(h, arguments, m).values| == |arguments|
    ensures forall i :: 0 <= i < |arguments| ==>
              PassedBy(h, arguments[i], m) == Gives(PassedAll(h, arguments, m).values[i])
    decreases |arguments|
  {
    if arguments != [] {
      CellsAlwaysPass(h, arguments[..|arguments| - 1], m);
    }
  }

  /** Whether the arguments pass what the last call was passed, compared in
      place without copying any. */
  method ComparesInPlace(h: Host, arguments: seq<Argument>, cached: seq<Value>, m: Memory) returns (same: bool)
    requires CellsOnly(arguments)
    ensures same <==> PassedAll(h, arguments, m) == AllGive(cached)
  {
    CellsAlwaysPass(h, arguments, m);
    if |cached| != |arguments| {
      return false;
    }
    for i := 0 to |arguments|
      invariant forall k :: 0 <= k < i ==> PassedAll(h, arguments, m).values[k] == cached[k]
    {
      var cell := arguments[i].source.cell;
      var held := if cell.Some? then Held(m, cell.value) else None;
      HoldingIsPassing(held, cached[i], arguments[i].optional);
      if !HoldsArgument(held, cached[i], arguments[i].optional) {
        assert PassedBy(h, arguments[i], m) == Gives(PassedAll(h, arguments, m).values[i]);
        return false;
      }
    }
    assert PassedAll(h, arguments, m).values == cached;
    same := true;
  }
}
