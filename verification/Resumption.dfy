/**
 What control nodes answer of what their children do, and how a resuming
 sequence goes on from tick to tick.
 */
module Resumption {
  import opened Integers
  import opened Graphs
  import opened Devices
  import opened Control

  // One tick.

  /** A node that cannot read what it reads errs, and ticks nothing. */
  lemma UnreadErrs<W>(t: Tree, b: Bridge<W>, s: Cells<W>)
    requires !b.pulls(t.id, s.world).0
    ensures TurnOf(t, b, s) == Turn(Errs, Cells(s.indexes, s.latches, s.published, b.pulls(t.id, s.world).1),
                                    [(t.id, Errs)])
  {
  }

  /** One that can is logged once, after all it ticks, with what it answers. */
  lemma ReadIsLogged<W>(t: Tree, b: Bridge<W>, s: Cells<W>)
    requires b.pulls(t.id, s.world).0
    ensures var turn, own := TurnOf(t, b, s), OwnTurn(t, b, s.(world := b.pulls(t.id, s.world).1));
            turn.answer == own.answer && turn.cells == own.cells && turn.log == own.log + [(t.id, own.answer)]
  {
    hide OwnTurn;
  }

  /** What a node that ticks no other answers. */
  function PlainAnswer(kind: Kind): Answer
    requires kind in {Succeeds, Fails, Stays}
  {
    match kind
    case Succeeds => Tells(Success)
    case Fails => Tells(Failure)
    case Stays => Tells(Running)
  }

  /** It leaves every cell as it is and ticks nothing; a leaf does and answers as
      it is given to. */
  lemma PlainTells<W>(t: Tree, b: Bridge<W>, s: Cells<W>)
    ensures t.kind in {Succeeds, Fails, Stays} ==> OwnTurn(t, b, s) == Turn(PlainAnswer(t.kind), s, [])
    ensures t.kind == Leaf ==>
              OwnTurn(t, b, s) == Turn(b.leaf(t.id, s.world).0,
                                       Cells(s.indexes, s.latches, s.published, b.leaf(t.id, s.world).1), [])
  {
    hide RoundOf, TurnOf, ResumingTurn, StatusTurn;
  }

  /** A run's decorator with a status latched answers it and ticks nothing;
      another ticks its program, publishes what it answers, an error as a
      failure, and latches an end. */
  lemma StatusTells<W>(t: Tree, b: Bridge<W>, s: Cells<W>)
    requires t.kind == RunStatus && t.id in s.latches && t.children != []
    ensures var turn, program := OwnTurn(t, b, s), TurnOf(t.children[0], b, s);
            if s.latches[t.id] in {Some(Success), Some(Failure)}
            then turn == Turn(Tells(s.latches[t.id].value), s, [])
            else
              var status := if program.answer.Errs? then Failure else program.answer.status;
              && turn.answer == program.answer && turn.log == program.log
              && turn.cells.published == program.cells.published[t.id := status]
              && turn.cells.latches == (if status == Running then program.cells.latches
                                        else program.cells.latches[t.id := Some(status)])
              && turn.cells.indexes == program.cells.indexes && turn.cells.world == program.cells.world
  {
    hide RoundOf, TurnOf;
  }

  /** One child after the other: each finds the cells as the one before left
      them, and what each logs follows. */
  ghost predicate Follows<W>(ts: seq<Tree>, b: Bridge<W>, s: Cells<W>, round: Round<W>, ss: seq<Cells<W>>,
                             logs: seq<Log>)
  {
    && |ss| == |logs| == |round.answers| + 1 && |round.answers| <= |ts|
    && ss[0] == s && logs[0] == [] && ss[|round.answers|] == round.cells && logs[|round.answers|] == round.log
    && forall i :: 0 <= i < |round.answers| ==> Ticks(ts[i], b, ss, logs, i, round.answers[i])
  }

  ghost predicate Ticks<W>(t: Tree, b: Bridge<W>, ss: seq<Cells<W>>, logs: seq<Log>, i: nat, answer: Answer)
    requires i + 1 < |ss| && i + 1 < |logs|
  {
    var turn := TurnOf(t, b, ss[i]);
    answer == turn.answer && ss[i + 1] == turn.cells && logs[i + 1] == logs[i] + turn.log
  }

  lemma {:induction false} RoundFollows<W>(ts: seq<Tree>, kind: Kind, b: Bridge<W>, s: Cells<W>)
    returns (ss: seq<Cells<W>>, logs: seq<Log>)
    ensures Follows(ts, b, s, RoundOf(ts, kind, b, s), ss, logs)
    decreases |ts|
  {
    hide TurnOf;
    ss, logs := [s], [[]];
    if ts != [] {
      var first := TurnOf(ts[0], b, s);
      if GoesOn(kind, first.answer) {
        var rest := RoundOf(ts[1..], kind, b, first.cells);
        ss, logs := RoundFollows(ts[1..], kind, b, first.cells);
        var later := seq(|logs|, i requires 0 <= i < |logs| => first.log + logs[i]);
        forall i | 0 <= i < |rest.answers| ensures Ticks(ts[i + 1], b, ss, later, i, rest.answers[i]) {
          assert Ticks(ts[1..][i], b, ss, logs, i, rest.answers[i]);
          var turn := TurnOf(ts[i + 1], b, ss[i]);
          assert first.log + (logs[i] + turn.log) == (first.log + logs[i]) + turn.log;
        }
        FollowsOne(ts, b, s, first, rest, ss, later);
        ss, logs := [s] + ss, [[]] + later;
      } else {
        ss, logs := [s, first.cells], [[], first.log];
        assert [] + first.log == first.log;
      }
    }
  }

  lemma FollowsOne<W>(ts: seq<Tree>, b: Bridge<W>, s: Cells<W>, first: Turn<W>, rest: Round<W>, ss: seq<Cells<W>>,
                      later: seq<Log>)
    requires ts != [] && first == TurnOf(ts[0], b, s) && |ss| == |later| == |rest.answers| + 1
    requires |rest.answers| < |ts| && ss[0] == first.cells && later[0] == first.log
    requires ss[|rest.answers|] == rest.cells && later[|rest.answers|] == first.log + rest.log
    requires forall i :: 0 <= i < |rest.answers| ==> Ticks(ts[i + 1], b, ss, later, i, rest.answers[i])
    ensures Follows(ts, b, s, Following(first, rest), [s] + ss, [[]] + later)
  {
    hide TurnOf;
    var round, all, logs := Following(first, rest), [s] + ss, [[]] + later;
    assert [] + first.log == first.log;
    forall i | 0 <= i < |round.answers| ensures Ticks(ts[i], b, all, logs, i, round.answers[i]) {
      if i > 0 {
        assert Ticks(ts[i - 1 + 1], b, ss, later, i - 1, rest.answers[i - 1]);
      }
    }
  }

  /** A round ticks the first children, up to one that stops it. */
  lemma {:induction false} RoundIsPrefix<W>(ts: seq<Tree>, kind: Kind, b: Bridge<W>, s: Cells<W>)
    ensures var answers := RoundOf(ts, kind, b, s).answers;
            && |answers| <= |ts| && (forall i :: 0 <= i < |answers| - 1 ==> GoesOn(kind, answers[i]))
            && (|answers| < |ts| ==> answers != [] && !GoesOn(kind, answers[|answers| - 1]))
    decreases |ts|
  {
    hide TurnOf;
    if ts != [] {
      var first := TurnOf(ts[0], b, s);
      if GoesOn(kind, first.answer) {
        RoundIsPrefix(ts[1..], kind, b, first.cells);
      }
    }
  }

  /** So many children were ticked, and all told so. */
  predicate AllTell(answers: seq<Answer>, n: nat, status: Status) {
    |answers| == n && forall i :: 0 <= i < n ==> answers[i] == Tells(status)
  }

  /** A sequence succeeds exactly when all its children are ticked and succeed;
      otherwise it answers as the one child that did not. */
  lemma SequenceTells<W>(t: Tree, b: Bridge<W>, s: Cells<W>)
    requires t.kind == Sequence
    ensures var answer, answers := OwnTurn(t, b, s).answer, RoundOf(t.children, Sequence, b, s).answers;
            && (answer == Tells(Success) <==> AllTell(answers, |t.children|, Success))
            && (answer != Tells(Success) ==>
                  answers != [] && answer == answers[|answers| - 1]
                  && AllTell(answers[..|answers| - 1], |answers| - 1, Success))
  {
    hide RoundOf, TurnOf;
    RoundIsPrefix(t.children, Sequence, b, s);
  }

  /** A fallback fails exactly when it has children and all are ticked and
      fail; otherwise it answers as the one child that did not, if any. */
  lemma FallbackTells<W>(t: Tree, b: Bridge<W>, s: Cells<W>)
    requires t.kind == Fallback
    ensures var answer, answers := OwnTurn(t, b, s).answer, RoundOf(t.children, Fallback, b, s).answers;
            && (answer == Tells(Failure) <==> t.children != [] && AllTell(answers, |t.children|, Failure))
            && (t.children == [] ==> answer == Tells(Success))
            && (t.children != [] && answer != Tells(Failure) ==>
                  answers != [] && answer == answers[|answers| - 1]
                  && AllTell(answers[..|answers| - 1], |answers| - 1, Failure))
  {
    hide RoundOf, TurnOf;
    RoundIsPrefix(t.children, Fallback, b, s);
    RoundTicksOne(t.children, Fallback, b, s);
  }

  lemma RoundTicksOne<W>(ts: seq<Tree>, kind: Kind, b: Bridge<W>, s: Cells<W>)
    ensures ts != [] ==> RoundOf(ts, kind, b, s).answers != []
  {
    hide TurnOf;
  }

  /** A parallel node errs exactly when a child does, and ticks every child
      before that one; with no error it ticks them all, succeeds exactly when
      all do, and fails exactly when one does. */
  lemma ParallelTells<W>(t: Tree, b: Bridge<W>, s: Cells<W>)
    requires t.kind == Parallel
    ensures var answer, answers := OwnTurn(t, b, s).answer, RoundOf(t.children, Parallel, b, s).answers;
            && (forall i :: 0 <= i < |answers| - 1 ==> answers[i].Tells?)
            && (answer.Errs? <==> answers != [] && answers[|answers| - 1].Errs?)
            && (answer.Tells? ==>
                  && |answers| == |t.children|
                  && (answer == Tells(Success) <==> AllTell(answers, |t.children|, Success))
                  && (answer == Tells(Failure) <==> Tells(Failure) in answers))
  {
    hide RoundOf, TurnOf;
    RoundIsPrefix(t.children, Parallel, b, s);
    var answers := RoundOf(t.children, Parallel, b, s).answers;
    if Errs !in answers {
      AllOrOne(answers);
    }
  }

  lemma AllOrOne(answers: seq<Answer>)
    requires Errs !in answers
    ensures AllTell(answers, |answers|, Success) <==> Tells(Failure) !in answers && Tells(Running) !in answers
  {
    if Tells(Failure) !in answers && Tells(Running) !in answers {
      forall i | 0 <= i < |answers| ensures answers[i] == Tells(Success) {
        assert answers[i] in answers;
        var status := answers[i].status;
        assert Tells(status) in answers;
        match status {
          case Success =>
          case Failure =>
          case Running =>
        }
      }
    }
  }

  // A resuming sequence.

  /** The answers of the children a resuming sequence ticks. */
  function Resumed<W>(t: Tree, b: Bridge<W>, s: Cells<W>): seq<Answer>
    requires t.kind == Resuming && t.id in s.indexes
  {
    RoundOf(t.children[StartOf(s.indexes[t.id], |t.children|)..], Resuming, b, s).answers
  }

  /** How many of them succeeded. */
  function Succeeded(answers: seq<Answer>): nat {
    if answers != [] && answers[|answers| - 1] != Tells(Success) then |answers| - 1 else |answers|
  }

  lemma {:induction false} CountedFits(index: nat, n: nat)
    requires index + n < TWO_TO_THE_16
    ensures Counted(index, n) == index + n
    decreases n
  {
    if n > 0 {
      CountedFits(index, n - 1);
    }
  }

  /** The node ids a tree lists. */
  function IdsIn(t: Tree): set<Uuid>
    decreases t, 1
  {
    {t.id} + IdsOfAll(t.children)
  }

  function IdsOfAll(ts: seq<Tree>): set<Uuid>
    decreases ts, 0
  {
    if ts == [] then {} else IdsIn(ts[0]) + IdsOfAll(ts[1..])
  }

  /** A tick leaves the index of a sequence it does not hold. */
  lemma {:induction false} IndexStays<W>(t: Tree, b: Bridge<W>, s: Cells<W>, id: Uuid)
    requires id in s.indexes && id !in IdsIn(t)
    ensures var after := TurnOf(t, b, s).cells; id in after.indexes && after.indexes[id] == s.indexes[id]
    decreases t, 1
  {
    var pulled := s.(world := b.pulls(t.id, s.world).1);
    match t.kind
    case Sequence => IndexStaysAll(t.children, Sequence, b, pulled, id);
    case Fallback => IndexStaysAll(t.children, Fallback, b, pulled, id);
    case Parallel => IndexStaysAll(t.children, Parallel, b, pulled, id);
    case Resuming =>
      if t.id in s.indexes {
        var start := StartOf(s.indexes[t.id], |t.children|);
        IdsOfRest(t.children, start);
        IndexStaysAll(t.children[start..], Resuming, b, pulled, id);
      }
      assert OwnTurn(t, b, pulled) == ResumingTurn(t, b, pulled);
    case RunStatus =>
      if t.children != [] {
        IndexStays(t.children[0], b, pulled, id);
      }
      assert OwnTurn(t, b, pulled) == StatusTurn(t, b, pulled);
    case _ =>
  }

  lemma {:induction false} IndexStaysAll<W>(ts: seq<Tree>, kind: Kind, b: Bridge<W>, s: Cells<W>, id: Uuid)
    requires id in s.indexes && id !in IdsOfAll(ts)
    ensures var after := RoundOf(ts, kind, b, s).cells; id in after.indexes && after.indexes[id] == s.indexes[id]
    decreases ts, 0
  {
    hide TurnOf;
    if ts != [] {
      IndexStays(ts[0], b, s, id);
      IndexStaysAll(ts[1..], kind, b, TurnOf(ts[0], b, s).cells, id);
    }
  }

  lemma {:induction false} IdsOfRest(ts: seq<Tree>, i: nat)
    requires i <= |ts|
    ensures IdsOfAll(ts[i..]) <= IdsOfAll(ts)
    decreases i
  {
    if i == 0 {
      assert ts[0..] == ts;
    } else {
      IdsOfRest(ts[1..], i - 1);
      assert ts[1..][i - 1..] == ts[i..];
    }
  }

  /**
   What a tick leaves of the index: answered that it runs, the child that was;
   ended, the first child; and after an error what it was, so that the children
   that succeeded before the one that erred are ticked again.
   */
  lemma ResumesAt<W>(t: Tree, b: Bridge<W>, s: Cells<W>)
    requires t.kind == Resuming && t.id in s.indexes && t.id !in IdsOfAll(t.children)
    requires s.indexes[t.id] <= |t.children| <= TWO_TO_THE_16
    ensures var turn, index, answers := ResumingTurn(t, b, s), s.indexes[t.id], Resumed(t, b, s);
            && t.id in turn.cells.indexes && index + |answers| <= |t.children|
            && turn.cells.indexes[t.id]
               == (if turn.answer == Tells(Running) then index + Succeeded(answers)
                   else if turn.answer.Errs? then index
                   else 0)
            && (turn.answer == Tells(Running) ==> index + Succeeded(answers) < |t.children|)
            && (turn.answer == Tells(Success) ==> index + Succeeded(answers) == |t.children|)
            && turn.answer == LastOr(answers, Tells(Success))
  {
    hide RoundOf, TurnOf, Counted, IdsOfAll;
    var index := s.indexes[t.id];
    var ts := t.children[index..];
    var answers := RoundOf(ts, Resuming, b, s).answers;
    RoundIsPrefix(ts, Resuming, b, s);
    if answers != [] && answers[|answers| - 1] == Tells(Running) {
      CountedFits(index, |answers| - 1);
    }
    IdsOfRest(t.children, index);
    IndexStaysAll(ts, Resuming, b, s, t.id);
  }

  // Tick after tick.

  /** Between ticks `i` and `j` of a resuming sequence nothing else moves its
      index; the rest of the cells are as they may be. */
  ghost predicate Resumes<W>(t: Tree, b: Bridge<W>, ss: seq<Cells<W>>, i: nat, j: nat) {
    && t.kind == Resuming && t.id !in IdsOfAll(t.children) && |t.children| <= TWO_TO_THE_16 && i <= j < |ss|
    && (forall k :: i <= k <= j ==> t.id in ss[k].indexes)
    && ss[i].indexes[t.id] <= |t.children|
    && forall k: nat :: i <= k < j ==> Carries(t, b, ss, k)
  }

  ghost predicate Carries<W>(t: Tree, b: Bridge<W>, ss: seq<Cells<W>>, k: nat)
    requires t.kind == Resuming
  {
    var after := k + 1;
    k < |ss| && after < |ss| && t.id in ss[after].indexes
    && t.id in ResumingTurn(t, b, ss[k]).cells.indexes
    && ss[after].indexes[t.id] == ResumingTurn(t, b, ss[k]).cells.indexes[t.id]
  }

  /** At tick `k`, child `c` is ticked and succeeds. */
  ghost predicate SucceedsAt<W>(t: Tree, b: Bridge<W>, ss: seq<Cells<W>>, k: nat, c: nat)
    requires t.kind == Resuming && k < |ss| && t.id in ss[k].indexes
  {
    ss[k].indexes[t.id] <= c < ss[k].indexes[t.id] + Succeeded(Resumed(t, b, ss[k]))
  }

  /** Each tick that answers that it runs begins where the last one stopped. */
  lemma {:induction false} RunsOnward<W>(t: Tree, b: Bridge<W>, ss: seq<Cells<W>>, i: nat, j: nat, k: nat)
    requires Resumes(t, b, ss, i, j) && i <= k <= j
    requires forall n :: i <= n < j ==> ResumingTurn(t, b, ss[n]).answer == Tells(Running)
    ensures ss[k].indexes[t.id] <= |t.children|
    ensures i < k ==> ss[k].indexes[t.id] == ss[k - 1].indexes[t.id] + Succeeded(Resumed(t, b, ss[k - 1]))
    decreases k
  {
    hide ResumingTurn, Resumed;
    if i < k {
      RunsOnward(t, b, ss, i, j, k - 1);
      ResumesAt(t, b, ss[k - 1]);
      assert Carries(t, b, ss, k - 1);
    }
  }

  /** A child that succeeded is not ticked again while the sequence runs. */
  lemma {:induction false} NeverTwice<W>(t: Tree, b: Bridge<W>, ss: seq<Cells<W>>, i: nat, j: nat, k: nat, c: nat)
    requires Resumes(t, b, ss, i, j) && i <= k < j
    requires forall n :: i <= n < j ==> ResumingTurn(t, b, ss[n]).answer == Tells(Running)
    requires SucceedsAt(t, b, ss, k, c)
    ensures c < ss[j].indexes[t.id]
    decreases j
  {
    hide ResumingTurn, Resumed;
    RunsOnward(t, b, ss, i, j, j);
    if k < j - 1 {
      NeverTwice(t, b, ss, i, j - 1, k, c);
    }
  }

  /**
   A resuming sequence that runs for some ticks and then succeeds has had each
   child from the one it was at succeed at exactly one of them.
   */
  lemma {:induction false} PassSucceeds<W>(t: Tree, b: Bridge<W>, ss: seq<Cells<W>>, i: nat, j: nat, c: nat)
    requires Resumes(t, b, ss, i, j) && ss[i].indexes[t.id] <= c < |t.children|
    requires forall n :: i <= n < j ==> ResumingTurn(t, b, ss[n]).answer == Tells(Running)
    requires ResumingTurn(t, b, ss[j]).answer == Tells(Success)
    ensures exists k :: i <= k <= j && SucceedsAt(t, b, ss, k, c)
    ensures forall k, n :: i <= k < n <= j && SucceedsAt(t, b, ss, k, c) ==> !SucceedsAt(t, b, ss, n, c)
  {
    hide ResumingTurn, Resumed;
    RunsOnward(t, b, ss, i, j, j);
    ResumesAt(t, b, ss[j]);
    if c < ss[j].indexes[t.id] {
      var k := WhenPassed(t, b, ss, i, j, c);
    } else {
      assert SucceedsAt(t, b, ss, j, c);
    }
    forall k, n | i <= k < n <= j && SucceedsAt(t, b, ss, k, c) ensures !SucceedsAt(t, b, ss, n, c) {
      NeverTwice(t, b, ss, i, n, k, c);
    }
  }

  /** The tick at which a child the sequence is past succeeded. */
  lemma {:induction false} WhenPassed<W>(t: Tree, b: Bridge<W>, ss: seq<Cells<W>>, i: nat, j: nat, c: nat)
    returns (k: nat)
    requires Resumes(t, b, ss, i, j) && ss[i].indexes[t.id] <= c < ss[j].indexes[t.id]
    requires forall n :: i <= n < j ==> ResumingTurn(t, b, ss[n]).answer == Tells(Running)
    ensures i <= k < j && SucceedsAt(t, b, ss, k, c)
    decreases j
  {
    hide ResumingTurn, Resumed;
    RunsOnward(t, b, ss, i, j, j);
    if ss[j - 1].indexes[t.id] <= c {
      k := j - 1;
    } else {
      k := WhenPassed(t, b, ss, i, j - 1, c);
    }
  }
}
