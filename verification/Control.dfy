/**
 Control nodes: how a tick goes down a tree, which nodes it reaches, and what
 it leaves in their cells.

 `TurnOf` is one node's tick and `RoundOf` that of its children, in turn for
 as long as the node goes on.  What the other nodes do, and the detached nodes
 a node reads first, are a `Bridge`.  `Ticker` is the tree ticking, cell by
 cell.
 */
module Control {
  import opened Integers
  import opened Graphs
  import opened Devices
  import opened Ticking

  datatype Kind = Succeeds | Fails | Stays | Sequence | Resuming | Fallback | Parallel | RunStatus | Leaf

  /** A tree as it is registered: a node of several parents stands under each. */
  datatype Tree = Tree(id: Uuid, kind: Kind, children: seq<Tree>)

  datatype Answer = Tells(status: Status) | Errs

  /** What the tree's control nodes keep, by node, and all else. */
  datatype Cells<W> = Cells(
    /** Which child a resuming sequence is at. */
    indexes: map<Uuid, nat>,
    latches: Latches,
    published: map<Uuid, Status>,
    world: W)

  /** Whether the detached nodes that a node reads are brought up to date, and
      what a node that is no control node does. */
  datatype Bridge<!W> = Bridge(pulls: (Uuid, W) -> (bool, W), leaf: (Uuid, W) -> (Answer, W))

  /** The nodes ticked, in the order they answered, with what they answered. */
  type Log = seq<(Uuid, Answer)>

  datatype Turn<W> = Turn(answer: Answer, cells: Cells<W>, log: Log)

  /** The answers of the children ticked, which are the first ones. */
  datatype Round<W> = Round(answers: seq<Answer>, cells: Cells<W>, log: Log)

  const TWO_TO_THE_16: nat := 0x1_0000

  /** Whether a node that was answered so ticks its next child. */
  predicate GoesOn(kind: Kind, answer: Answer) {
    match kind
    case Sequence => answer == Tells(Success)
    case Resuming => answer == Tells(Success)
    case Fallback => answer == Tells(Failure)
    case Parallel => answer.Tells?
    case _ => false
  }

  function LastOr(answers: seq<Answer>, none: Answer): Answer {
    if answers == [] then none else answers[|answers| - 1]
  }

  /** An error goes up; with none, failure if any failed, and success if all
      succeeded. */
  function Together(answers: seq<Answer>): Answer {
    if Errs in answers then Errs
    else if Tells(Failure) in answers then Tells(Failure)
    else if Tells(Running) in answers then Tells(Running)
    else Tells(Success)
  }

  function StartOf(index: nat, n: nat): nat {
    if index <= n then index else n
  }

  /** `n` counted on from an index, in 16 bits. */
  function Counted(index: nat, n: nat): nat {
    if n == 0 then index else (Counted(index, n - 1) + 1) % TWO_TO_THE_16
  }

  /** Where a resuming sequence is after a round that began at `index`. */
  function IndexAfter(index: nat, answers: seq<Answer>): nat {
    if answers != [] && answers[|answers| - 1] == Tells(Running) then Counted(index, |answers| - 1) else 0
  }

  function TurnOf<W>(t: Tree, b: Bridge<W>, s: Cells<W>): Turn<W>
    decreases t, 2
  {
    var pulled := b.pulls(t.id, s.world);
    var s := s.(world := pulled.1);
    if !pulled.0 then Turn(Errs, s, [(t.id, Errs)])
    else
      var turn := OwnTurn(t, b, s);
      turn.(log := turn.log + [(t.id, turn.answer)])
  }

  function OwnTurn<W>(t: Tree, b: Bridge<W>, s: Cells<W>): Turn<W>
    decreases t, 1
  {
    match t.kind
    case Succeeds => Turn(Tells(Success), s, [])
    case Fails => Turn(Tells(Failure), s, [])
    case Stays => Turn(Tells(Running), s, [])
    case Leaf =>
      var answered := b.leaf(t.id, s.world);
      Turn(answered.0, s.(world := answered.1), [])
    case Sequence =>
      var round := RoundOf(t.children, Sequence, b, s);
      Turn(LastOr(round.answers, Tells(Success)), round.cells, round.log)
    case Fallback =>
      var round := RoundOf(t.children, Fallback, b, s);
      Turn(LastOr(round.answers, Tells(Success)), round.cells, round.log)
    case Parallel =>
      var round := RoundOf(t.children, Parallel, b, s);
      Turn(Together(round.answers), round.cells, round.log)
    case Resuming => ResumingTurn(t, b, s)
    case RunStatus => StatusTurn(t, b, s)
  }

  /** From the child its index is at; an error leaves the index as it was. */
  function ResumingTurn<W>(t: Tree, b: Bridge<W>, s: Cells<W>): Turn<W>
    requires t.kind == Resuming
    decreases t, 0
  {
    if t.id !in s.indexes then Turn(Errs, s, [])
    else
      var round := RoundOf(t.children[StartOf(s.indexes[t.id], |t.children|)..], Resuming, b, s);
      var answer := LastOr(round.answers, Tells(Success));
      if answer.Errs? then Turn(Errs, round.cells, round.log)
      else
        Turn(answer,
             round.cells.(indexes := round.cells.indexes[t.id := IndexAfter(s.indexes[t.id], round.answers)]),
             round.log)
  }

  /** A latched decorator answers its latch; another ticks its program,
      mirrors what it answers, and latches an end. */
  function StatusTurn<W>(t: Tree, b: Bridge<W>, s: Cells<W>): Turn<W>
    requires t.kind == RunStatus
    decreases t, 0
  {
    if t.id !in s.latches then Turn(Errs, s, [])
    else if Terminal(s.latches[t.id]) then Turn(Tells(s.latches[t.id].value), s, [])
    else if t.children == [] then Turn(Errs, s, [])
    else
      var turn := TurnOf(t.children[0], b, s);
      turn.(cells := Mirroring(turn.cells, t.id, turn.answer))
  }

  function Mirroring<W>(s: Cells<W>, id: Uuid, answer: Answer): Cells<W> {
    var status := if answer.Errs? then Failure else answer.status;
    s.(published := s.published[id := status],
       latches := if status == Running then s.latches else s.latches[id := Some(status)])
  }

  function RoundOf<W>(ts: seq<Tree>, kind: Kind, b: Bridge<W>, s: Cells<W>): Round<W>
    decreases ts, 0
  {
    if ts == [] then Round([], s, [])
    else
      var first := TurnOf(ts[0], b, s);
      if !GoesOn(kind, first.answer) then Round([first.answer], first.cells, first.log)
      else Following(first, RoundOf(ts[1..], kind, b, first.cells))
  }

  function Following<W>(first: Turn<W>, rest: Round<W>): Round<W> {
    Round([first.answer] + rest.answers, rest.cells, first.log + rest.log)
  }

  // A round, child by child.

  function Joined<W>(answers: seq<Answer>, log: Log, rest: Round<W>): Round<W> {
    Round(answers + rest.answers, rest.cells, log + rest.log)
  }

  lemma RoundSteps<W>(ts: seq<Tree>, kind: Kind, b: Bridge<W>, s: Cells<W>, i: nat, answers: seq<Answer>, log: Log)
    requires i < |ts|
    ensures var first := TurnOf(ts[i], b, s);
            Joined(answers, log, RoundOf(ts[i..], kind, b, s))
            == if GoesOn(kind, first.answer)
               then Joined(answers + [first.answer], log + first.log, RoundOf(ts[i + 1..], kind, b, first.cells))
               else Round(answers + [first.answer], first.cells, log + first.log)
  {
    var first := TurnOf(ts[i], b, s);
    assert ts[i..][0] == ts[i] && ts[i..][1..] == ts[i + 1..];
    if GoesOn(kind, first.answer) {
      var rest := RoundOf(ts[i + 1..], kind, b, first.cells);
      assert answers + ([first.answer] + rest.answers) == (answers + [first.answer]) + rest.answers;
      assert log + (first.log + rest.log) == (log + first.log) + rest.log;
    }
  }

  lemma RoundStarts<W>(ts: seq<Tree>, kind: Kind, b: Bridge<W>, s: Cells<W>)
    ensures RoundOf(ts, kind, b, s) == Joined([], [], RoundOf(ts[0..], kind, b, s))
  {
    assert ts[0..] == ts;
  }

  lemma RoundEnds<W>(ts: seq<Tree>, kind: Kind, b: Bridge<W>, s: Cells<W>, answers: seq<Answer>, log: Log)
    ensures Joined(answers, log, RoundOf(ts[|ts|..], kind, b, s)) == Round(answers, s, log)
  {
  }

  // The tree, ticking.

  class Ticker<W> {
    const b: Bridge<W>
    var indexes: map<Uuid, nat>
    var latches: Latches
    var published: map<Uuid, Status>
    var world: W
    /** Who answered what since the ticker was made. */
    var log: Log

    ghost function Now(): Cells<W>
      reads this
    {
      Cells(indexes, latches, published, world)
    }

    constructor (b: Bridge<W>, s: Cells<W>)
      ensures this.b == b && Now() == s && log == []
    {
      this.b := b;
      indexes, latches, published, world, log := s.indexes, s.latches, s.published, s.world, [];
    }

    /** Ticks a node: what it reads first, then the node, which is logged. */
    method TickNode(t: Tree) returns (answer: Answer)
      modifies this
      ensures var turn := TurnOf(t, b, old(Now()));
              answer == turn.answer && Now() == turn.cells && log == old(log) + turn.log
      decreases t, 2
    {
      var pulled := b.pulls(t.id, world);
      world := pulled.1;
      if pulled.0 {
        answer := TickOwn(t);
      } else {
        answer := Errs;
      }
      log := log + [(t.id, answer)];
    }

    method TickOwn(t: Tree) returns (answer: Answer)
      modifies this
      ensures var turn := OwnTurn(t, b, old(Now()));
              answer == turn.answer && Now() == turn.cells && log == old(log) + turn.log
      decreases t, 1
    {
      match t.kind {
        case Succeeds => answer := Tells(Success);
        case Fails => answer := Tells(Failure);
        case Stays => answer := Tells(Running);
        case Leaf =>
          var answered := b.leaf(t.id, world);
          answer, world := answered.0, answered.1;
        case Sequence => answer := TickSequence(t.children);
        case Fallback => answer := TickFallback(t.children);
        case Parallel => answer := TickParallel(t.children);
        case Resuming => answer := TickResuming(t);
        case RunStatus => answer := TickRunStatus(t);
      }
    }

    /** Ticks children as long as they succeed. */
    method TickSequence(children: seq<Tree>) returns (answer: Answer)
      modifies this
      ensures var round := RoundOf(children, Sequence, b, old(Now()));
              answer == LastOr(round.answers, Tells(Success)) && Now() == round.cells
              && log == old(log) + round.log
      decreases children, 0
    {
      hide TurnOf, RoundOf, Joined;
      answer := Tells(Success);
      ghost var round, done, told: Log := RoundOf(children, Sequence, b, Now()), [], [];
      RoundStarts(children, Sequence, b, Now());
      for i := 0 to |children|
        invariant round == Joined(done, told, RoundOf(children[i..], Sequence, b, Now()))
        invariant log == old(log) + told && answer == LastOr(done, Tells(Success)) == Tells(Success)
      {
        RoundSteps(children, Sequence, b, Now(), i, done, told);
        ghost var turn := TurnOf(children[i], b, Now());
        answer := TickNode(children[i]);
        done, told := done + [answer], told + turn.log;
        if answer != Tells(Success) {
          return;
        }
      }
      RoundEnds(children, Sequence, b, Now(), done, told);
    }

    /** Ticks children as long as they fail; with none, it succeeds. */
    method TickFallback(children: seq<Tree>) returns (answer: Answer)
      modifies this
      ensures var round := RoundOf(children, Fallback, b, old(Now()));
              answer == LastOr(round.answers, Tells(Success)) && Now() == round.cells
              && log == old(log) + round.log
      decreases children, 0
    {
      hide TurnOf, RoundOf, Joined;
      if children == [] {
        RoundEnds(children, Fallback, b, Now(), [], []);
        RoundStarts(children, Fallback, b, Now());
        return Tells(Success);
      }
      answer := Tells(Failure);
      ghost var round, done, told: Log := RoundOf(children, Fallback, b, Now()), [], [];
      RoundStarts(children, Fallback, b, Now());
      for i := 0 to |children|
        invariant round == Joined(done, told, RoundOf(children[i..], Fallback, b, Now())) && |done| == i
        invariant log == old(log) + told && answer == Tells(Failure) && (i > 0 ==> done[i - 1] == answer)
      {
        RoundSteps(children, Fallback, b, Now(), i, done, told);
        ghost var turn := TurnOf(children[i], b, Now());
        answer := TickNode(children[i]);
        done, told := done + [answer], told + turn.log;
        if answer != Tells(Failure) {
          return;
        }
      }
      RoundEnds(children, Fallback, b, Now(), done, told);
    }

    /** Ticks every child, until one errs. */
    method TickParallel(children: seq<Tree>) returns (answer: Answer)
      modifies this
      ensures var round := RoundOf(children, Parallel, b, old(Now()));
              answer == Together(round.answers) && Now() == round.cells && log == old(log) + round.log
      decreases children, 0
    {
      hide TurnOf, RoundOf, Joined;
      var success, failure := true, false;
      ghost var round, done, told: Log := RoundOf(children, Parallel, b, Now()), [], [];
      RoundStarts(children, Parallel, b, Now());
      for i := 0 to |children|
        invariant round == Joined(done, told, RoundOf(children[i..], Parallel, b, Now()))
        invariant log == old(log) + told && Errs !in done
        invariant failure == (Tells(Failure) in done)
        invariant success == (Tells(Failure) !in done && Tells(Running) !in done)
      {
        RoundSteps(children, Parallel, b, Now(), i, done, told);
        ghost var turn := TurnOf(children[i], b, Now());
        answer := TickNode(children[i]);
        done, told := done + [answer], told + turn.log;
        if answer.Errs? {
          return;
        }
        success := success && answer.status == Success;
        failure := failure || answer.status == Failure;
      }
      RoundEnds(children, Parallel, b, Now(), done, told);
      answer := if success then Tells(Success) else if failure then Tells(Failure) else Tells(Running);
    }

    /** Ticks children as long as they succeed, from the one it was at. */
    method TickResuming(t: Tree) returns (answer: Answer)
      requires t.kind == Resuming
      modifies this
      ensures var turn := ResumingTurn(t, b, old(Now()));
              answer == turn.answer && Now() == turn.cells && log == old(log) + turn.log
      decreases t, 0
    {
      hide TurnOf, RoundOf, Joined;
      if t.id !in indexes {
        return Errs;
      }
      var current;
      answer, current := TickOnward(t.children, StartOf(indexes[t.id], |t.children|), indexes[t.id]);
      if answer.Errs? {
        return;
      }
      if answer != Tells(Running) {
        current := 0;
      }
      indexes := indexes[t.id := current];
    }

    /** Ticks the children from `start` as long as they succeed, counting them
        on from `index`. */
    method TickOnward(children: seq<Tree>, start: nat, index: nat) returns (answer: Answer, current: nat)
      requires start <= |children|
      modifies this
      ensures var round := RoundOf(children[start..], Resuming, b, old(Now()));
              && answer == LastOr(round.answers, Tells(Success)) && Now() == round.cells
              && log == old(log) + round.log
              && (answer == Tells(Running) ==> round.answers != [] && current == Counted(index, |round.answers| - 1))
      decreases children, 0
    {
      hide TurnOf, RoundOf, Joined;
      answer, current := Tells(Success), index;
      var ts := children[start..];
      ghost var round, done, told: Log := RoundOf(ts, Resuming, b, Now()), [], [];
      RoundStarts(ts, Resuming, b, Now());
      for i := 0 to |ts|
        invariant round == Joined(done, told, RoundOf(ts[i..], Resuming, b, Now())) && |done| == i
        invariant log == old(log) + told && answer == Tells(Success) && (i > 0 ==> done[i - 1] == answer)
        invariant current == Counted(index, i)
      {
        RoundSteps(ts, Resuming, b, Now(), i, done, told);
        ghost var turn := TurnOf(ts[i], b, Now());
        assert ts[i] == children[start + i] && ts[i] in children;
        answer := TickNode(ts[i]);
        done, told := done + [answer], told + turn.log;
        if answer != Tells(Success) {
          return;
        }
        current := (current + 1) % TWO_TO_THE_16;
      }
      RoundEnds(ts, Resuming, b, Now(), done, told);
    }

    /** Ticks the program of a run that has not ended. */
    method TickRunStatus(t: Tree) returns (answer: Answer)
      requires t.kind == RunStatus
      modifies this
      ensures var turn := StatusTurn(t, b, old(Now()));
              answer == turn.answer && Now() == turn.cells && log == old(log) + turn.log
      decreases t, 0
    {
      if t.id !in latches {
        return Errs;
      }
      if Terminal(latches[t.id]) {
        return Tells(latches[t.id].value);
      }
      if t.children == [] {
        return Errs;
      }
      answer := TickNode(t.children[0]);
      if answer.Errs? {
        published, latches := published[t.id := Failure], latches[t.id := Some(Failure)];
        return;
      }
      published := published[t.id := answer.status];
      if answer.status != Running {
        latches := latches[t.id := Some(answer.status)];
      }
    }
  }
}
