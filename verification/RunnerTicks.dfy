/** What a tick of the runner's tree does to the runs' decorators. */
module RunnerTicks {
  import opened Integers
  import opened Digraphs
  import opened Graphs
  import opened Scaffolds
  import opened Decorators
  import opened ScaffoldEdits
  import opened Devices
  import opened Ticking
  import opened Control
  import opened Resumption

  // `TreeIsTicked` says that whatever tree a tick goes down, it leaves the
  // latches and statuses that `Ticking` says of some outcomes, which the tick's
  // log gives; `RunnerReaches` says which decorators are among them.

  // What a log tells of each node.

  function AsTicked(answer: Answer): Ticked {
    if answer.Errs? then Erred else Answered(answer.status)
  }

  /** The last answer of each node. */
  function OutcomesIn(log: Log): map<Uuid, Ticked> {
    if log == [] then map[]
    else OutcomesIn(log[..|log| - 1])[log[|log| - 1].0 := AsTicked(log[|log| - 1].1)]
  }

  lemma {:induction false} OutcomesJoin(a: Log, b: Log)
    ensures OutcomesIn(a + b) == OutcomesIn(a) + OutcomesIn(b)
    decreases |b|
  {
    if b == [] {
      assert a + b == a;
    } else {
      var init, last := b[..|b| - 1], b[|b| - 1];
      OutcomesJoin(a, init);
      assert (a + b)[..|a + b| - 1] == a + init && (a + b)[|a + b| - 1] == last;
    }
  }

  lemma OutcomeOfOne(id: Uuid, answer: Answer)
    ensures OutcomesIn([(id, answer)]) == map[id := AsTicked(answer)]
  {
    assert [(id, answer)][..0] == [];
  }

  // What a turn leaves of each decorator.

  /** A decorator the log does not name, or that was latched, is as it was; one
      it names has published what it answered, and latched an end. */
  ghost predicate MetAt<W>(before: Cells<W>, outcomes: map<Uuid, Ticked>, after: Cells<W>, d: Uuid) {
    if d !in before.latches || Terminal(before.latches[d]) || d !in outcomes then
      && (d in after.latches <==> d in before.latches)
      && (d in before.latches ==> after.latches[d] == before.latches[d])
      && (d in after.published <==> d in before.published)
      && (d in before.published ==> after.published[d] == before.published[d])
      && (d in before.latches && d in outcomes ==> outcomes[d] == Answered(before.latches[d].value))
    else
      && outcomes[d] != Unreached && d in after.latches && d in after.published
      && after.published[d] == Mirrored(outcomes[d])
      && after.latches[d]
         == if Mirrored(outcomes[d]) == Running then before.latches[d] else Some(Mirrored(outcomes[d]))
  }

  ghost predicate Met<W>(before: Cells<W>, log: Log, after: Cells<W>) {
    forall d :: MetAt(before, OutcomesIn(log), after, d)
  }

  lemma MetJoins<W>(a: Cells<W>, first: Log, m: Cells<W>, second: Log, z: Cells<W>)
    requires Met(a, first, m) && Met(m, second, z)
    ensures Met(a, first + second, z)
  {
    OutcomesJoin(first, second);
    forall d ensures MetAt(a, OutcomesIn(first + second), z, d) {
      assert MetAt(a, OutcomesIn(first), m, d) && MetAt(m, OutcomesIn(second), z, d);
    }
  }

  lemma MetNone<W>(a: Cells<W>, z: Cells<W>)
    requires z.latches == a.latches && z.published == a.published
    ensures Met(a, [], z)
  {
  }

  /** A node that is no decorator is logged. */
  lemma MetOther<W>(a: Cells<W>, log: Log, z: Cells<W>, id: Uuid, answer: Answer)
    requires Met(a, log, z) && id !in a.latches
    ensures Met(a, log + [(id, answer)], z)
  {
    OutcomesJoin(log, [(id, answer)]);
    OutcomeOfOne(id, answer);
    forall d ensures MetAt(a, OutcomesIn(log + [(id, answer)]), z, d) {
      assert MetAt(a, OutcomesIn(log), z, d);
    }
  }

  // The tree.

  /** Among the decorators are none but run-status nodes over a program, and no
      node stands under itself. */
  ghost predicate Sound(t: Tree, decorators: set<Uuid>)
    decreases t, 1
  {
    && (t.id in decorators ==> t.kind == RunStatus && t.children != [])
    && t.id !in IdsOfAll(t.children) && AllSound(t.children, decorators)
  }

  ghost predicate AllSound(ts: seq<Tree>, decorators: set<Uuid>)
    decreases ts, 0
  {
    forall i :: 0 <= i < |ts| ==> Sound(ts[i], decorators)
  }

  /** A decorator reads no detached node. */
  ghost predicate PullsNone<W(!new)>(b: Bridge<W>, decorators: set<Uuid>) {
    forall d, w :: d in decorators ==> b.pulls(d, w).0
  }

  /** A tree names no node it does not list. */
  lemma {:induction false} LogIsWithin<W>(t: Tree, b: Bridge<W>, s: Cells<W>)
    ensures OutcomesIn(TurnOf(t, b, s).log).Keys <= IdsIn(t)
    decreases t, 1
  {
    var pulled, turn := b.pulls(t.id, s.world), TurnOf(t, b, s);
    var own := OwnTurn(t, b, s.(world := pulled.1));
    if !pulled.0 {
      OutcomeOfOne(t.id, Errs);
    } else {
      OwnLogIsWithin(t, b, s.(world := pulled.1));
      OutcomesJoin(own.log, [(t.id, own.answer)]);
      OutcomeOfOne(t.id, own.answer);
      assert turn.log == own.log + [(t.id, own.answer)];
    }
  }

  lemma {:induction false} OwnLogIsWithin<W>(t: Tree, b: Bridge<W>, s: Cells<W>)
    ensures OutcomesIn(OwnTurn(t, b, s).log).Keys <= IdsOfAll(t.children)
    decreases t, 0
  {
    hide TurnOf, RoundOf, OutcomesIn;
    assert OutcomesIn([]) == map[] by {
      NothingLogged();
    }
    match t.kind
    case Sequence => RoundIsWithin(t.children, Sequence, b, s);
    case Fallback => RoundIsWithin(t.children, Fallback, b, s);
    case Parallel => RoundIsWithin(t.children, Parallel, b, s);
    case Resuming =>
      if t.id in s.indexes {
        var start := StartOf(s.indexes[t.id], |t.children|);
        IdsOfRest(t.children, start);
        RoundIsWithin(t.children[start..], Resuming, b, s);
      }
    case RunStatus =>
      if t.children != [] {
        LogIsWithin(t.children[0], b, s);
      }
    case _ =>
  }

  lemma NothingLogged()
    ensures OutcomesIn([]) == map[]
  {
  }

  lemma {:induction false} RoundIsWithin<W>(ts: seq<Tree>, kind: Kind, b: Bridge<W>, s: Cells<W>)
    ensures OutcomesIn(RoundOf(ts, kind, b, s).log).Keys <= IdsOfAll(ts)
    decreases ts, 0
  {
    hide TurnOf;
    if ts != [] {
      var first := TurnOf(ts[0], b, s);
      LogIsWithin(ts[0], b, s);
      RoundIsWithin(ts[1..], kind, b, first.cells);
      OutcomesJoin(first.log, RoundOf(ts[1..], kind, b, first.cells).log);
    }
  }

  /** Every turn leaves the decorators as its log tells. */
  lemma {:induction false} TurnMet<W(!new)>(t: Tree, b: Bridge<W>, s: Cells<W>)
    requires Sound(t, s.latches.Keys) && PullsNone(b, s.latches.Keys)
    ensures var turn := TurnOf(t, b, s); Met(s, turn.log, turn.cells) && turn.cells.latches.Keys == s.latches.Keys
    decreases t, 1
  {
    hide OwnTurn, Met;
    var pulled := b.pulls(t.id, s.world);
    var at := s.(world := pulled.1);
    if pulled.0 {
      OwnTurnMet(t, b, at);
      MetFromPulled(s, at, TurnOf(t, b, s));
    } else {
      MetNone(s, at);
      MetOther(s, [], at, t.id, Errs);
      assert [] + [(t.id, Errs)] == [(t.id, Errs)];
      MetFromPulled(s, s, TurnOf(t, b, s));
    }
  }

  /** Pulling touches no latch and no status. */
  lemma MetFromPulled<W>(s: Cells<W>, at: Cells<W>, turn: Turn<W>)
    requires at.latches == s.latches && at.published == s.published && Met(at, turn.log, turn.cells)
    ensures Met(s, turn.log, turn.cells) && turn.cells.latches.Keys == s.latches.Keys
  {
    forall d ensures MetAt(s, OutcomesIn(turn.log), turn.cells, d) && (d in turn.cells.latches <==> d in s.latches) {
      assert MetAt(at, OutcomesIn(turn.log), turn.cells, d);
    }
  }

  /** With what it is logged to have answered, a node's own turn does. */
  lemma {:induction false} OwnTurnMet<W(!new)>(t: Tree, b: Bridge<W>, s: Cells<W>)
    requires Sound(t, s.latches.Keys) && PullsNone(b, s.latches.Keys)
    ensures var turn := OwnTurn(t, b, s); Met(s, turn.log + [(t.id, turn.answer)], turn.cells)
    decreases t, 0
  {
    hide TurnOf, RoundOf, Met;
    var turn := OwnTurn(t, b, s);
    if t.kind == RunStatus {
      StatusTurnMet(t, b, s);
    } else {
      match t.kind {
        case Sequence => RoundMet(t.children, Sequence, b, s);
        case Fallback => RoundMet(t.children, Fallback, b, s);
        case Parallel => RoundMet(t.children, Parallel, b, s);
        case Resuming =>
          assert turn == ResumingTurn(t, b, s);
          if t.id in s.indexes {
            var start := StartOf(s.indexes[t.id], |t.children|);
            RoundMet(t.children[start..], Resuming, b, s);
            IndexMet(s, RoundOf(t.children[start..], Resuming, b, s), turn);
          } else {
            MetNone(s, s);
          }
        case _ => MetNone(s, turn.cells);
      }
      MetOther(s, turn.log, turn.cells, t.id, turn.answer);
    }
  }

  /** Moving an index touches no latch and no status. */
  lemma IndexMet<W>(s: Cells<W>, round: Round<W>, turn: Turn<W>)
    requires Met(s, round.log, round.cells) && turn.log == round.log
    requires turn.cells.latches == round.cells.latches && turn.cells.published == round.cells.published
    ensures Met(s, turn.log, turn.cells)
  {
    forall d ensures MetAt(s, OutcomesIn(turn.log), turn.cells, d) {
      assert MetAt(s, OutcomesIn(round.log), round.cells, d);
    }
  }

  lemma {:induction false} StatusTurnMet<W(!new)>(t: Tree, b: Bridge<W>, s: Cells<W>)
    requires t.kind == RunStatus && Sound(t, s.latches.Keys) && PullsNone(b, s.latches.Keys)
    ensures var turn := StatusTurn(t, b, s); Met(s, turn.log + [(t.id, turn.answer)], turn.cells)
    decreases t, 0, 0
  {
    hide TurnOf, OutcomesIn;
    var turn := StatusTurn(t, b, s);
    OutcomesJoin(turn.log, [(t.id, turn.answer)]);
    OutcomeOfOne(t.id, turn.answer);
    NothingLogged();
    if t.id in s.latches && !Terminal(s.latches[t.id]) {
      var child := TurnOf(t.children[0], b, s);
      assert Sound(t.children[0], s.latches.Keys);
      TurnMet(t.children[0], b, s);
      LogIsWithin(t.children[0], b, s);
      assert t.id !in OutcomesIn(child.log) && MetAt(s, OutcomesIn(child.log), child.cells, t.id);
      forall d ensures MetAt(s, OutcomesIn(turn.log + [(t.id, turn.answer)]), turn.cells, d) {
        assert MetAt(s, OutcomesIn(child.log), child.cells, d);
      }
    }
  }

  lemma {:induction false} RoundMet<W(!new)>(ts: seq<Tree>, kind: Kind, b: Bridge<W>, s: Cells<W>)
    requires AllSound(ts, s.latches.Keys) && PullsNone(b, s.latches.Keys)
    ensures var round := RoundOf(ts, kind, b, s); Met(s, round.log, round.cells)
    decreases ts, 0
  {
    hide TurnOf, Met;
    if ts == [] {
      MetNone(s, s);
    } else {
      var first := TurnOf(ts[0], b, s);
      assert Sound(ts[0], s.latches.Keys);
      TurnMet(ts[0], b, s);
      assert AllSound(ts[1..], first.cells.latches.Keys);
      RoundMet(ts[1..], kind, b, first.cells);
      MetJoins(s, first.log, first.cells, RoundOf(ts[1..], kind, b, first.cells).log,
               RoundOf(ts[1..], kind, b, first.cells).cells);
    }
  }

  // The device's tick.

  lemma MetIsTicked<W>(before: Cells<W>, log: Log, after: Cells<W>, m: Meets)
    requires Met(before, log, after) && m.outcomes == OutcomesIn(log)
    ensures after.latches == LatchesAfter(before.latches, m)
    ensures after.published == PublishedAfter(before.published, before.latches, m)
  {
    forall d ensures d in after.latches <==> d in before.latches {
      assert MetAt(before, OutcomesIn(log), after, d);
    }
    forall d | d in before.latches ensures after.latches[d] == LatchesAfter(before.latches, m)[d] {
      assert MetAt(before, OutcomesIn(log), after, d);
    }
    var published := PublishedAfter(before.published, before.latches, m);
    forall d
      ensures (d in after.published <==> d in published) && (d in published ==> after.published[d] == published[d])
    {
      assert MetAt(before, OutcomesIn(log), after, d);
    }
  }

  /**
   A tick of the tree leaves the device as `Ticking` says of a tick that meets
   what the log tells, whatever the tree's control nodes and other nodes are.
   */
  lemma TreeIsTicked<W(!new)>(d: Device, t: Tree, b: Bridge<W>, s: Cells<W>, m: Meets)
    requires d.latches == Some(s.latches) && d.published == s.published
    requires Sound(t, s.latches.Keys) && PullsNone(b, s.latches.Keys) && m.outcomes == OutcomesIn(TurnOf(t, b, s).log)
    ensures var after := TurnOf(t, b, s).cells;
            && TickedTree(d, m) == d.(latches := Some(after.latches), published := after.published)
            && after.latches.Keys == s.latches.Keys
  {
    hide TurnOf, Met, LatchesAfter, PublishedAfter, OutcomesIn;
    TurnMet(t, b, s);
    MetIsTicked(s, TurnOf(t, b, s).log, TurnOf(t, b, s).cells, m);
  }

  // Which decorators a tick reaches.

  /** The ids of the children ticked, and of what is under them, are all that
      is logged; and their own ids are. */
  lemma {:induction false} TickedAreLogged<W>(ts: seq<Tree>, kind: Kind, b: Bridge<W>, s: Cells<W>)
    ensures var round := RoundOf(ts, kind, b, s);
            && |round.answers| <= |ts|
            && (forall i :: 0 <= i < |round.answers| ==> ts[i].id in OutcomesIn(round.log))
            && OutcomesIn(round.log).Keys <= IdsOfAll(ts[..|round.answers|])
    decreases |ts|
  {
    hide TurnOf, OutcomesIn;
    NothingLogged();
    if ts != [] {
      var first := TurnOf(ts[0], b, s);
      IsLogged(ts[0], b, s);
      LogIsWithin(ts[0], b, s);
      assert ts[..1] == [ts[0]] && IdsOfAll([ts[0]]) == IdsIn(ts[0]);
      if GoesOn(kind, first.answer) {
        var rest := RoundOf(ts[1..], kind, b, first.cells);
        TickedAreLogged(ts[1..], kind, b, first.cells);
        OutcomesJoin(first.log, rest.log);
        assert ts[..|rest.answers| + 1][0] == ts[0] && ts[..|rest.answers| + 1][1..] == ts[1..][..|rest.answers|];
        forall i | 0 <= i < |rest.answers| + 1 ensures ts[i].id in OutcomesIn(first.log + rest.log) {
          assert i > 0 ==> ts[1..][i - 1] == ts[i];
        }
      }
    }
  }

  lemma IsLogged<W>(t: Tree, b: Bridge<W>, s: Cells<W>)
    ensures t.id in OutcomesIn(TurnOf(t, b, s).log)
  {
    hide OwnTurn;
    var turn := TurnOf(t, b, s);
    assert turn.log[|turn.log| - 1].0 == t.id;
  }

  /** The child stands nowhere else under its parent. */
  ghost predicate Alone(t: Tree, k: nat)
    requires k < |t.children|
  {
    t.children[k].id != t.id
    && forall i :: 0 <= i < |t.children| && i != k ==> t.children[k].id !in IdsIn(t.children[i])
  }

  lemma {:induction false} NotInOthers(ts: seq<Tree>, n: nat, id: Uuid)
    requires n <= |ts| && forall i :: 0 <= i < n ==> id !in IdsIn(ts[i])
    ensures id !in IdsOfAll(ts[..n])
    decreases n
  {
    if n > 0 {
      assert ts[..n][0] == ts[0] && ts[..n][1..] == ts[1..][..n - 1];
      forall i | 0 <= i < n - 1 ensures id !in IdsIn(ts[1..][i]) {
        assert ts[1..][i] == ts[i + 1];
      }
      NotInOthers(ts[1..], n - 1, id);
    }
  }

  /**
   The runner reaches a run's decorator, which stands under it alone, exactly
   when no child ticked before it erred; and the decorator's program is invoked
   exactly when it is reached and has not ended.
   */
  lemma RunnerReaches<W>(t: Tree, b: Bridge<W>, s: Cells<W>, k: nat, m: Meets)
    requires t.kind == Parallel && b.pulls(t.id, s.world).0 && k < |t.children| && Alone(t, k)
    requires t.children[k].id in s.latches && m.outcomes == OutcomesIn(TurnOf(t, b, s).log)
    ensures var turn, d := TurnOf(t, b, s), t.children[k].id;
            var round := RoundOf(t.children, Parallel, b, s.(world := b.pulls(t.id, s.world).1));
            && (d in OutcomesIn(turn.log) <==>
                  forall i :: 0 <= i < |round.answers| && i < k ==> round.answers[i].Tells?)
            && (d in Invoked(s.latches, m) <==> !Terminal(s.latches[d]) && d in OutcomesIn(turn.log))
  {
    var at, d := s.(world := b.pulls(t.id, s.world).1), t.children[k].id;
    var round, turn := RoundOf(t.children, Parallel, b, at), TurnOf(t, b, s);
    assert OwnTurn(t, b, at).log == round.log;
    assert turn.log == round.log + [(t.id, turn.answer)];
    OutcomesJoin(round.log, [(t.id, turn.answer)]);
    OutcomeOfOne(t.id, turn.answer);
    TickedAreLogged(t.children, Parallel, b, at);
    RoundIsPrefix(t.children, Parallel, b, at);
    if |round.answers| <= k {
      NotInOthers(t.children, |round.answers|, d);
    }
    NoneUnreached(turn.log);
  }

  lemma {:induction false} NoneUnreached(log: Log)
    ensures forall d :: d in OutcomesIn(log) ==> OutcomesIn(log)[d] != Unreached
    decreases |log|
  {
    if log != [] {
      NoneUnreached(log[..|log| - 1]);
    }
  }

  /**
   A program that errs ends its run once: the error goes up, its decorator has
   published and latched a failure, and from then on the decorator answers that
   without ticking its program.
   */
  lemma ErrsOnce<W>(t: Tree, b: Bridge<W>, s: Cells<W>, later: Cells<W>)
    requires t.kind == RunStatus && t.id in s.latches && t.children != [] && t.id in later.latches
    requires b.pulls(t.id, s.world).0 && b.pulls(t.id, later.world).0
    requires !Terminal(s.latches[t.id]) && TurnOf(t, b, s).answer.Errs?
    ensures var after := TurnOf(t, b, s).cells;
            && t.id in after.latches && after.latches[t.id] == Some(Failure)
            && t.id in after.published && after.published[t.id] == Failure
            && (later.latches[t.id] == after.latches[t.id] ==>
                  TurnOf(t, b, later)
                  == Turn(Tells(Failure), later.(world := b.pulls(t.id, later.world).1), [(t.id, Tells(Failure))]))
  {
    var at := s.(world := b.pulls(t.id, s.world).1);
    assert OwnTurn(t, b, at) == StatusTurn(t, b, at);
    var next := later.(world := b.pulls(t.id, later.world).1);
    assert OwnTurn(t, b, next) == StatusTurn(t, b, next);
    assert [] + [(t.id, Tells(Failure))] == [(t.id, Tells(Failure))];
  }

  // The tree of a graph.

  const SUCCEED := Uuid(0x6696f0bde78140cdaeb58dc616f810d2)
  const FAIL := Uuid(0x3abbbfb6d00d41eb88bb97874267eaf6)
  const RUN := Uuid(0x41ae5ed01d124b71aab802e7efedf177)
  const SEQUENCE := Uuid(0x32246df6ab5d4f18922123e28731de93)
  const RESUMING_SEQUENCE := Uuid(0xc2d5ed72798c417494f713378bd9bf1f)
  const FALLBACK := Uuid(0xbfa89a4ec369430ebe780dc07311391c)

  function KindOf(function_: Uuid): Kind {
    if function_ == SUCCEED then Succeeds
    else if function_ == FAIL then Fails
    else if function_ == RUN then Stays
    else if function_ == SEQUENCE then Sequence
    else if function_ == RESUMING_SEQUENCE then Resuming
    else if function_ == FALLBACK then Fallback
    else if function_ == PARALLEL then Parallel
    else if function_ == RUN_STATUS then RunStatus
    else Leaf
  }

  /** A tree of the graph: each node with its children's trees, in order. */
  ghost predicate Unrolls(index: Index, t: Tree)
    decreases t
  {
    && t.id in index && t.kind == KindOf(index[t.id].function_) && |t.children| == |ChildList(index[t.id])|
    && forall i :: 0 <= i < |t.children| ==>
         t.children[i].id == ChildList(index[t.id])[i] && Unrolls(index, t.children[i])
  }

  lemma ChildIsUnder(index: Index, id: Uuid, child: Uuid)
    requires id in index && AcyclicUnder(Children(index), id) && child in ChildList(index[id])
    ensures child in index && AcyclicUnder(Children(index), child)
    ensures Reach(Children(index), {child}) < Reach(Children(index), {id})
  {
    var edges := Children(index);
    assert child in Next(edges, id) && id in Reach(edges, {id});
    ReachGrows(edges, {child}, {id});
    ReachGrows(edges, {child}, NextSet(edges, id));
    assert id !in Reach(edges, {child});
  }

  /** Registers a node over its children, which an acyclic graph has an end of. */
  method Register(index: Index, id: Uuid) returns (t: Tree)
    requires id in index && AcyclicUnder(Children(index), id)
    ensures Unrolls(index, t) && t.id == id
    decreases |Reach(Children(index), {id})|
  {
    var list := ChildList(index[id]);
    var children: seq<Tree> := [];
    for i := 0 to |list|
      invariant |children| == i
      invariant forall j :: 0 <= j < i ==> children[j].id == list[j] && Unrolls(index, children[j])
    {
      ChildIsUnder(index, id, list[i]);
      SubsetIsSmaller(Reach(Children(index), {list[i]}), Reach(Children(index), {id}));
      var child := Register(index, list[i]);
      children := children + [child];
    }
    t := Control.Tree(id, KindOf(index[id].function_), children);
  }

  lemma SubsetIsSmaller<T>(a: set<T>, b: set<T>)
    requires a < b
    ensures |a| < |b|
  {
    var x :| x in b && x !in a;
    assert a <= b - {x};
    SubsetCounts(a, b - {x});
  }

  lemma {:induction false} SubsetCounts<T>(a: set<T>, b: set<T>)
    requires a <= b
    ensures |a| <= |b|
    decreases |a|
  {
    if a != {} {
      var x :| x in a;
      SubsetCounts(a - {x}, b - {x});
    }
  }

  /** A tree lists what its root reaches. */
  lemma {:induction false} UnrolledIsReached(index: Index, t: Tree)
    requires Unrolls(index, t)
    ensures IdsIn(t) <= Reach(Children(index), {t.id})
    decreases t, 1
  {
    hide Reach;
    var edges := Children(index);
    forall i | 0 <= i < |t.children| ensures IdsIn(t.children[i]) <= Reach(edges, {t.id}) {
      UnrolledIsReached(index, t.children[i]);
      assert t.children[i].id in Next(edges, t.id) && t.id in Reach(edges, {t.id});
      ReachGrows(edges, {t.children[i].id}, {t.id});
    }
    AllWithin(t.children, Reach(edges, {t.id}));
  }

  lemma {:induction false} AllWithin(ts: seq<Tree>, ids: set<Uuid>)
    requires forall i :: 0 <= i < |ts| ==> IdsIn(ts[i]) <= ids
    ensures IdsOfAll(ts) <= ids
    decreases |ts|
  {
    if ts != [] {
      forall i | 0 <= i < |ts[1..]| ensures IdsIn(ts[1..][i]) <= ids {
        assert ts[1..][i] == ts[i + 1];
      }
      AllWithin(ts[1..], ids);
    }
  }

  /** The tree of an acyclic graph whose decorators are run-status nodes over a
      program. */
  lemma {:induction false} UnrolledIsSound(index: Index, t: Tree, decorators: set<Uuid>)
    requires Unrolls(index, t) && AcyclicUnder(Children(index), t.id)
    requires forall d :: d in decorators && d in index ==>
               index[d].function_ == RUN_STATUS && ChildList(index[d]) != []
    ensures Sound(t, decorators)
    decreases t
  {
    hide Reach;
    var edges := Children(index);
    forall i | 0 <= i < |t.children|
      ensures Sound(t.children[i], decorators) && IdsIn(t.children[i]) <= Reach(edges, NextSet(edges, t.id))
    {
      var child := t.children[i];
      ChildIsUnder(index, t.id, child.id);
      UnrolledIsSound(index, child, decorators);
      UnrolledIsReached(index, child);
      assert child.id in NextSet(edges, t.id);
      ReachGrows(edges, {child.id}, NextSet(edges, t.id));
    }
    AllWithin(t.children, Reach(edges, NextSet(edges, t.id)));
    assert t.id in Reach(edges, {t.id});
  }

  lemma UnrolledAs(index: Index, t: Tree)
    requires Unrolls(index, t)
    ensures t.id in index && t.kind == KindOf(index[t.id].function_) && |t.children| == |ChildList(index[t.id])|
    ensures forall i :: 0 <= i < |t.children| ==> t.children[i].id == ChildList(index[t.id])[i]
  {
    hide KindOf;
  }

  lemma ParallelIsParallel()
    ensures KindOf(PARALLEL) == Parallel
  {
  }

  /** The runner's tree: in parallel, the main behavior and then each run's
      decorator, in the order the runner lists them. */
  lemma RunnerUnrolls(g: Graph, runner: Uuid, mainRoot: Option<Uuid>, runs: seq<Run>, t: Tree)
    requires UniqueIds(g.nodes) && RunnerNode(runner, mainRoot, runs) in g.nodes
    requires Unrolls(ById(g.nodes), t) && t.id == runner
    ensures t.kind == Parallel && |t.children| == |RootList(mainRoot)| + |runs|
    ensures forall i :: 0 <= i < |runs| ==> t.children[|RootList(mainRoot)| + i].id == runs[i].decorator
  {
    hide KindOf, UniqueIds, Unrolls;
    var n, main := RunnerNode(runner, mainRoot, runs), RootList(mainRoot);
    ByIdFinds(g.nodes, n);
    ParallelIsParallel();
    UnrolledAs(ById(g.nodes), t);
    forall i | 0 <= i < |runs| ensures t.children[|main| + i].id == runs[i].decorator {
      assert ChildList(n)[|main| + i] == DecoratorList(runs)[i];
    }
  }
}
