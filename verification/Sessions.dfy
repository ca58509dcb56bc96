/**
 A device's whole tick: its graph lowered when it changed, the tree ticked node
 by node, and what the nodes answered reported to the traces.
 */
module Sessions {
  import opened Integers
  import opened Graphs
  import opened Scaffolds
  import opened ScaffoldEdits
  import opened Devices
  import opened Ticking
  import opened Latching
  import opened Tickable
  import opened Control
  import opened Resumption
  import opened RunnerTicks
  import opened Interpreter
  import Decorators
  import Digraphs
  import Lifetimes
  import T = Traces

  // What a tick's log tells the traces.

  function Recording(answer: Answer): T.NodeStatus {
    match answer
    case Tells(Success) => T.Succeeded
    case Tells(Running) => T.Ran
    case _ => T.Failed
  }

  function RecordOf(log: Log): seq<(Uuid, T.NodeStatus)> {
    seq(|log|, i requires 0 <= i < |log| => (log[i].0, Recording(log[i].1)))
  }

  function Shown(status: Status): T.NodeStatus {
    Recording(Tells(status))
  }

  function Telling(t: Ticked): T.NodeStatus {
    if t.Unreached? then T.NotReached else Shown(Mirrored(t))
  }

  function OutcomeIn(log: Log, id: Uuid): Ticked {
    if id in OutcomesIn(log) then OutcomesIn(log)[id] else Unreached
  }

  /** What is recorded of a node is its last answer, an error as a failure. */
  lemma {:induction false} RecordTells(log: Log, id: Uuid)
    ensures T.Entry(T.Recorded(RecordOf(log)), id, T.NotReached) == Telling(OutcomeIn(log, id))
    decreases |log|
  {
    if log != [] {
      var init, record := log[..|log| - 1], RecordOf(log);
      RecordTells(init, id);
      assert record[..|record| - 1] == RecordOf(init);
    }
  }

  // The tree of a lowered graph.

  /** Any tree of the graph can be ticked over its decorators. */
  lemma TreeIsSound(c: Config, d: Device, t: Tree)
    requires Stands(c, d) && CanTick(c, d) && Unrolls(ById(d.graph.nodes), t) && t.id == c.runner
    ensures Sound(t, DecoratorsOf(All(d)))
  {
    hide Unrolls, Sound, LatchHolds;
    var index := ById(d.graph.nodes);
    forall id | id in DecoratorsOf(All(d)) && id in index
      ensures index[id].function_ == Decorators.RUN_STATUS && ChildList(index[id]) != []
    {
      assert Latched(d, id) && index[id] in d.graph.nodes;
    }
    UnrolledIsSound(index, t, DecoratorsOf(All(d)));
  }

  /** What is under a child of the runner names no run's decorator. */
  lemma UnderNamesNone(c: Config, d: Device, t: Tree, i: nat)
    requires Stands(c, d) && Guarded(c, d) && HasTree(c, d)
    requires Unrolls(ById(d.graph.nodes), t) && t.id == c.runner && i < |t.children|
    ensures t.children[i].id != t.id && IdsOfAll(t.children[i].children) !! DecoratorsOf(All(d))
  {
    hide Digraphs.Reach;
    var edges, child := Children(ById(d.graph.nodes)), t.children[i];
    ChildIsUnder(ById(d.graph.nodes), t.id, child.id);
    var starts := Digraphs.NextSet(edges, child.id);
    var n :| n in d.graph.nodes && n.id == child.id;
    NextOf(d.graph.nodes, n);
    UnderIsReached(ById(d.graph.nodes), child);
    RunnerIsNotUnder(edges, c.runner, child.id);
    assert starts <= Decorators.ChildrenBeside(d.graph.nodes, c.runner);
    Decorators.DecoratorsAreApart(d.graph, c.runner, d.mainRoot, All(d), starts);
  }

  lemma UnderIsReached(index: Index, t: Tree)
    requires Unrolls(index, t)
    ensures IdsOfAll(t.children) <= Digraphs.Reach(Children(index), Digraphs.NextSet(Children(index), t.id))
  {
    hide Digraphs.Reach;
    var edges := Children(index);
    forall i | 0 <= i < |t.children|
      ensures IdsIn(t.children[i]) <= Digraphs.Reach(edges, Digraphs.NextSet(edges, t.id))
    {
      UnrolledIsReached(index, t.children[i]);
      assert t.children[i].id in Digraphs.NextSet(edges, t.id);
      Digraphs.ReachGrows(edges, {t.children[i].id}, Digraphs.NextSet(edges, t.id));
    }
    AllWithin(t.children, Digraphs.Reach(edges, Digraphs.NextSet(edges, t.id)));
  }

  lemma RunnerIsNotUnder(edges: Digraphs.Edges<Uuid>, root: Uuid, child: Uuid)
    requires Digraphs.AcyclicUnder(edges, root) && child in Digraphs.Next(edges, root)
    ensures root !in Digraphs.Reach(edges, Digraphs.NextSet(edges, child))
  {
    assert root in Digraphs.Reach(edges, {root});
    var under := Digraphs.NextSet(edges, root);
    assert child in under;
    Digraphs.ReachGrows(edges, Digraphs.NextSet(edges, child), under);
  }

  /** A run's decorator stands under the runner alone, unless the runner lists
      it twice. */
  lemma RunsStandAlone(c: Config, d: Device, t: Tree, k: nat)
    requires Stands(c, d) && Guarded(c, d) && HasTree(c, d)
    requires Unrolls(ById(d.graph.nodes), t) && t.id == c.runner && k < |t.children|
    requires t.children[k].id in DecoratorsOf(All(d))
    requires forall i :: 0 <= i < |t.children| && i != k ==> t.children[i].id != t.children[k].id
    ensures Alone(t, k)
  {
    hide Unrolls, Guarded, Stands;
    UnderNamesNone(c, d, t, k);
    forall i | 0 <= i < |t.children| && i != k ensures t.children[k].id !in IdsIn(t.children[i]) {
      UnderNamesNone(c, d, t, i);
    }
  }

  /** A graph about to be lowered can be ticked once it is. */
  lemma FinishedCanTick(c: Config, d: Device)
    requires Stands(c, d) && CanTick(c, d)
    ensures Stands(c, FinishedResult(c, d).device) && CanTick(c, FinishedResult(c, d).device)
  {
    hide FinishedResult, Latched, HasTree;
    FinishedStands(c, d);
    FinishedHasTree(c, d);
    FinishedLists(c, d);
    var f := FinishedResult(c, d).device;
    forall id | id in DecoratorsOf(All(f)) ensures Latched(f, id) {
      DecoratorIsNotRunner(c, d, id);
      FinishedLatched(c, d, id);
    }
  }

  // A tick of the whole device.

  /** The nodes a tick restarts: those that start afresh, and that both the
      tree it replaces and the new one have, the runner aside. */
  ghost function RestartedBy(c: Config, d: Device, lowered: set<Uuid>, m: Meets): set<Uuid> {
    var f := FinishedResult(c, d).device;
    if Relowers(c, d, m) then f.afresh * lowered * IdsOf(f.graph.nodes) - {c.runner} else {}
  }

  lemma FinishedStaysDirty(c: Config, d: Device)
    requires d.dirty
    ensures var f := FinishedResult(c, d).device; f.dirty && f.latches == d.latches
  {
    hide Accepted, MainGraph;
  }

  /** A tick that replaces the tree has the graph's, over its decorators. */
  lemma RelowersAll(c: Config, d: Device, m: Meets)
    ensures var r, f := LoweredResult(c, d, m).device, FinishedResult(c, d).device;
            && (Relowers(c, d, m) <==> d.dirty && !r.dirty)
            && (Relowers(c, d, m) ==>
                  r.graph == f.graph && r.latches.Some? && r.latches.value.Keys == DecoratorsOf(All(f)))
            && (!Relowers(c, d, m) ==> r.latches == d.latches)
  {
    hide FinishedResult;
    if d.dirty {
      FinishedStaysDirty(c, d);
    }
  }

  /** The graph a tick lowers has a tree, which can be ticked. */
  lemma LowersTree(c: Config, d: Device, m: Meets)
    requires Stands(c, d) && CanTick(c, d) && Relowers(c, d, m)
    ensures var r := LoweredResult(c, d, m).device; var index := ById(r.graph.nodes);
            && r.latches.Some? && c.runner in index && Digraphs.AcyclicUnder(Children(index), c.runner)
            && forall t :: Unrolls(index, t) && t.id == c.runner ==> Sound(t, r.latches.value.Keys)
  {
    hide FinishedResult, LoweredResult, Latched, Sound, Unrolls;
    RelowersAll(c, d, m);
    FinishedCanTick(c, d);
    var f := FinishedResult(c, d).device;
    ByIdKeys(f.graph.nodes);
    forall t | Unrolls(ById(f.graph.nodes), t) && t.id == c.runner ensures Sound(t, DecoratorsOf(All(f))) {
      TreeIsSound(c, f, t);
    }
  }

  function RestartingAll(traces: seq<T.Trace>, nodes: set<Uuid>): (all: seq<T.Trace>)
    ensures |all| == |traces|
  {
    seq(|traces|, i requires 0 <= i < |traces| => T.Restarting(traces[i], nodes))
  }

  lemma RestartingNone(t: T.Trace)
    ensures T.Restarting(t, {}) == t
  {
  }

  lemma RestartingNoneAll(traces: seq<T.Trace>)
    ensures RestartingAll(traces, {}) == traces
  {
    hide T.Restarting;
    forall i | 0 <= i < |traces| ensures T.Restarting(traces[i], {}) == traces[i] {
      RestartingNone(traces[i]);
    }
  }

  predicate ComesToLower(d: Device, m: Meets) {
    m.haltsWritten && (d.written == Some(d.revision) || m.revisionWritten)
  }

  ghost function RestartedIn(c: Config, d: Device, lowered: set<Uuid>, m: Meets): set<Uuid> {
    if ComesToLower(d, m) then RestartedBy(c, Written(d), lowered, m) else {}
  }

  ghost function IndexesIn(c: Config, d: Device, m: Meets, indexes: map<Uuid, nat>, carried: map<Uuid, nat>)
    : map<Uuid, nat>
  {
    if ComesToLower(d, m) && Relowers(c, Written(d), m) then carried else indexes
  }

  lemma WrittenCanTick(c: Config, d: Device)
    requires Stands(c, d) && CanTick(c, d)
    ensures Stands(c, Written(d)) && CanTick(c, Written(d))
  {
    hide Digraphs.AcyclicUnder, Hangs;
    assert All(Written(d)) == All(d);
    forall id | id in DecoratorsOf(All(d)) ensures Latched(Written(d), id) {
      assert Latched(d, id);
    }
  }

  /** What the device is when a tick comes to its tree, if it does. */
  ghost function ComesTo(c: Config, d: Device, m: Meets): Result {
    if ComesToLower(d, m) then LoweredResult(c, Written(d), m) else Result(d, false)
  }

  /** Only what a tick meets before its tree counts until then. */
  lemma TickComesTo(c: Config, d: Device, m: Meets, met: Meets)
    requires met == m.(outcomes := met.outcomes, ticks := met.ticks, reports := met.reports)
    ensures TickResult(c, d, met) == TreeAfter(ComesTo(c, d, m), met)
  {
    hide FinishedResult;
  }

  /** The decorators a tick may come to. */
  ghost function MayReach(d: Device): set<Uuid> {
    DecoratorsOf(All(d)) + if d.latches.Some? then d.latches.value.Keys else {}
  }

  lemma ComesToFewer(c: Config, d: Device, m: Meets)
    ensures var l := ComesTo(c, d, m).device; l.latches.Some? ==> l.latches.value.Keys <= MayReach(d)
  {
    hide FinishedResult, LoweredResult;
    RelowersAll(c, Written(d), m);
    FinishedLists(c, Written(d));
    assert All(Written(d)) == All(d);
  }

  lemma ComesToLatched(c: Config, d: Device, m: Meets)
    requires CanTick(c, d)
    ensures ComesTo(c, d, m).ok ==> ComesTo(c, d, m).device.latches.Some?
  {
    hide FinishedResult;
  }

  lemma TickCanTick(c: Config, d: Device, m: Meets)
    requires Stands(c, d) && CanTick(c, d)
    ensures Stands(c, TickResult(c, d, m).device) && CanTick(c, TickResult(c, d, m).device)
  {
    hide TickResult, Latched, HasTree, Stands;
    TickStands(c, d, m);
    TickHasTree(c, d, m);
    HangsUnique(c, d);
    TickLists(c, d, m);
    var after := TickResult(c, d, m).device;
    forall id | id in DecoratorsOf(All(after)) ensures Latched(after, id) {
      DecoratorIsNotRunner(c, d, id);
      TickLatched(c, d, m, id);
    }
  }

  /** Each trace had its turn at a tick of the log. */
  ghost predicate Reported(traces: seq<T.Trace>, heard: seq<seq<T.Report>>, after: seq<T.Trace>,
                           hears: seq<seq<T.Report>>, clock: Option<nat>, outcomes: seq<T.Outcome>, tick: nat,
                           revision: nat, log: Log, did: seq<(Uuid, T.Activity)>)
  {
    && |after| == |hears| == |heard| == |outcomes| == |traces|
    && forall i :: 0 <= i < |traces| ==>
         T.Turned(traces[i], heard[i], after[i], hears[i], T.Due(traces[i], NowIn(traces, clock)), outcomes[i],
                  tick, revision, T.Recorded(RecordOf(log)), T.Recorded(did))
         && T.KeepsPace(traces[i], heard[i], after[i], hears[i], NowIn(traces, clock), outcomes[i], revision,
                        T.Recorded(RecordOf(log)), T.Recorded(did))
  }

  /** The clock, if a trace has an interval. */
  function NowIn(traces: seq<T.Trace>, clock: Option<nat>): Option<nat> {
    if exists i :: 0 <= i < |traces| && traces[i].interval != None then clock else None
  }

  /** The clock is an interval past the trace's last report, or there is
      nothing to wait for. */
  predicate HasWaited(t: T.Trace, now: Option<nat>) {
    t.interval == None || t.reportedAt == None || now == None || t.reportedAt.value + t.interval.value <= now.value
  }

  /** A client whose trace is due, and whose report is written, knows of every
      node what it answered at the tick. */
  lemma ClientsKnow(traces: seq<T.Trace>, heard: seq<seq<T.Report>>, after: seq<T.Trace>, hears: seq<seq<T.Report>>,
                    clock: Option<nat>, outcomes: seq<T.Outcome>, tick: nat, revision: nat, log: Log,
                    did: seq<(Uuid, T.Activity)>, i: nat, id: Uuid)
    requires Reported(traces, heard, after, hears, clock, outcomes, tick, revision, log, did)
    requires i < |traces| && HasWaited(traces[i], NowIn(traces, clock)) && outcomes[i].Written?
    ensures T.Entry(T.Learnt(hears[i]).status, id, T.NotReached) == Telling(OutcomeIn(log, id))
  {
    hide T.InStep, T.Learnt, T.Proper, T.Recorded, T.Entry, RecordOf, OutcomeIn;
    RecordTells(log, id);
  }

  /** The last time a log names a node. */
  predicate IsLast(log: Log, k: nat, id: Uuid) {
    k < |log| && log[k].0 == id && forall j :: k < j < |log| ==> log[j].0 != id
  }

  lemma {:induction false} RecordsLast(log: Log, k: nat, id: Uuid)
    ensures var record := T.Recorded(RecordOf(log));
            && (IsLast(log, k, id) ==>
                  id in record
                  && (log[k].1 == Tells(Success) ==> record[id] == T.Succeeded)
                  && (log[k].1 == Tells(Running) ==> record[id] == T.Ran)
                  && (log[k].1 == Tells(Failure) || log[k].1 == Errs ==> record[id] == T.Failed))
            && ((forall j :: 0 <= j < |log| ==> log[j].0 != id) ==> id !in record)
    decreases |log|
  {
    if log != [] {
      var init, record := log[..|log| - 1], RecordOf(log);
      RecordsLast(init, k, id);
      assert record[..|record| - 1] == RecordOf(init);
    }
  }

  /** So its status of a node is that it succeeded, runs or failed, as the node
      last answered at the tick, an error being a failure; it has none of a node
      not reached. */
  lemma ClientsKnowAnswers(traces: seq<T.Trace>, heard: seq<seq<T.Report>>, after: seq<T.Trace>,
                           hears: seq<seq<T.Report>>, clock: Option<nat>, outcomes: seq<T.Outcome>, tick: nat,
                           revision: nat, log: Log, did: seq<(Uuid, T.Activity)>, i: nat, id: Uuid, k: nat)
    requires Reported(traces, heard, after, hears, clock, outcomes, tick, revision, log, did)
    requires i < |traces| && HasWaited(traces[i], NowIn(traces, clock)) && outcomes[i].Written?
    ensures var known := T.Learnt(hears[i]).status;
            var shown := if id in known then known[id] else T.NotReached;
            && (IsLast(log, k, id) ==>
                  && (log[k].1 == Tells(Success) ==> shown == T.Succeeded)
                  && (log[k].1 == Tells(Running) ==> shown == T.Ran)
                  && (log[k].1 == Tells(Failure) || log[k].1 == Errs ==> shown == T.Failed))
            && ((forall j :: 0 <= j < |log| ==> log[j].0 != id) ==> shown == T.NotReached)
  {
    hide T.InStep, T.Learnt, T.Proper, T.Recorded, RecordOf, IsLast;
    RecordsLast(log, k, id);
    var record := T.Recorded(RecordOf(log));
    assert T.Entry(T.Learnt(hears[i]).status, id, T.NotReached) == T.Entry(record, id, T.NotReached);
  }

  /** It was told every node that was restarted since it last heard. */
  lemma ClientsHearRestarts(traces: seq<T.Trace>, nodes: set<Uuid>, heard: seq<seq<T.Report>>, after: seq<T.Trace>,
                            hears: seq<seq<T.Report>>, clock: Option<nat>, outcomes: seq<T.Outcome>, tick: nat,
                            revision: nat, log: Log, did: seq<(Uuid, T.Activity)>, i: nat)
    requires Reported(RestartingAll(traces, nodes), heard, after, hears, clock, outcomes, tick, revision, log, did)
    requires i < |traces| && traces[i].started && nodes != {} && outcomes[i].Written?
    requires HasWaited(RestartingAll(traces, nodes)[i], NowIn(RestartingAll(traces, nodes), clock))
    ensures |hears[i]| > |heard[i]| && nodes + traces[i].restarted == hears[i][|heard[i]|].restarted
  {
    hide T.InStep, T.Learnt, T.Proper, T.Recorded, RecordOf, NowIn;
    var before := RestartingAll(traces, nodes);
    assert before[i].restarted == traces[i].restarted + nodes;
  }

  /** Of a run whose decorator was ticked, it knows the status the run's key has. */
  lemma ClientsSeeRuns<W(!new)>(t: Tree, b: Bridge<W>, s: Cells<W>, traces: seq<T.Trace>, heard: seq<seq<T.Report>>,
                                after: seq<T.Trace>, hears: seq<seq<T.Report>>, clock: Option<nat>,
                                outcomes: seq<T.Outcome>, tick: nat, revision: nat, did: seq<(Uuid, T.Activity)>,
                                i: nat, d: Uuid)
    requires Sound(t, s.latches.Keys) && PullsNone(b, s.latches.Keys)
    requires Reported(traces, heard, after, hears, clock, outcomes, tick, revision, TurnOf(t, b, s).log, did)
    requires i < |traces| && HasWaited(traces[i], NowIn(traces, clock)) && outcomes[i].Written?
    requires d in s.latches && d in OutcomesIn(TurnOf(t, b, s).log)
    requires Terminal(s.latches[d]) ==> d in s.published && s.latches[d] == Some(s.published[d])
    ensures var published := TurnOf(t, b, s).cells.published;
            d in published && T.Entry(T.Learnt(hears[i]).status, d, T.NotReached) == Shown(published[d])
  {
    hide TurnOf, Reported, Sound, T.Learnt, T.Entry, OutcomesIn;
    var turn := TurnOf(t, b, s);
    TurnMet(t, b, s);
    assert MetAt(s, OutcomesIn(turn.log), turn.cells, d);
    ClientsKnow(traces, heard, after, hears, clock, outcomes, tick, revision, turn.log, did, i, d);
  }

  class Session<W(!new)> {
    const interpreter: BehaviorTreeInterpreter
    const traces: T.Traces
    /** The lowered tree, and which child each of its resuming sequences is at. */
    var tree: Tree
    var indexes: map<Uuid, nat>
    var world: W
    /** How many ticks began. */
    var ticks: nat

    ghost predicate Valid()
      reads this, interpreter, traces
    {
      traces.Valid() && (interpreter.latches.Some? ==> Sound(tree, interpreter.latches.value.Keys))
    }

    constructor (interpreter: BehaviorTreeInterpreter, traces: T.Traces, world: W)
      requires interpreter.latches.None? && traces.Valid()
      ensures Valid() && this.interpreter == interpreter && this.traces == traces && this.world == world && ticks == 0
    {
      this.interpreter, this.traces, this.world := interpreter, traces, world;
      tree, indexes, ticks := Control.Tree(interpreter.c.runner, Control.Parallel, []), map[], 0;
    }

    /** Lowers the graph when it changed: its tree is registered, its resuming
        sequences at `carried`, and the traces take the nodes restarted. */
    method Lower(m: Meets, carried: map<Uuid, nat>) returns (ok: bool, ghost restarted: set<Uuid>)
      requires Valid() && Stands(interpreter.c, interpreter.Now()) && CanTick(interpreter.c, interpreter.Now())
      modifies this`tree, this`indexes, interpreter, traces`traces
      ensures Valid() && Result(interpreter.Now(), ok) == LoweredResult(interpreter.c, old(interpreter.Now()), m)
      ensures restarted == RestartedBy(interpreter.c, old(interpreter.Now()), old(interpreter.lowered), m)
      ensures traces.traces == RestartingAll(old(traces.traces), restarted)
      ensures indexes == if Relowers(interpreter.c, old(interpreter.Now()), m) then carried else old(indexes)
    {
      hide FinishedResult, LoweredResult, HasTree, CanTick, Stands, Sound, Unrolls, T.Restarting, T.InStep, ById, IdsOf;
      ghost var d := interpreter.Now();
      HangsUnique(interpreter.c, d);
      RelowersAll(interpreter.c, d, m);
      var changed, nodes := interpreter.dirty, {};
      ok, nodes := interpreter.Lower(m);
      restarted := nodes;
      if changed && !interpreter.dirty {
        LowersTree(interpreter.c, d, m);
        traces.Restart(nodes);
        tree := Register(ById(interpreter.graph.nodes), interpreter.c.runner);
        indexes := carried;
      } else {
        RestartingNoneAll(traces.traces);
      }
    }

    /** Ticks the lowered tree from its root. */
    method TickTree(b: Bridge<W>) returns (answer: Answer, log: Log)
      requires Valid() && interpreter.latches.Some? && PullsNone(b, interpreter.latches.value.Keys)
      modifies this`indexes, this`world, interpreter`latches, interpreter`published
      ensures Valid()
      ensures var at := Cells(old(indexes), old(interpreter.latches).value, old(interpreter.published), old(world));
              var turn := TurnOf(tree, b, at);
              && answer == turn.answer && log == turn.log && interpreter.latches.Some?
              && Cells(indexes, interpreter.latches.value, interpreter.published, world) == turn.cells
      ensures forall m: Meets :: m.outcomes == OutcomesIn(log) ==>
                interpreter.Now() == TickedTree(old(interpreter.Now()), m)
    {
      hide TurnOf, Sound, T.InStep, TickedTree;
      ghost var d := interpreter.Now();
      var at := Cells(indexes, interpreter.latches.value, interpreter.published, world);
      var ticker := new Ticker(b, at);
      answer := ticker.TickNode(tree);
      log := ticker.log;
      assert log == TurnOf(tree, b, at).log;
      forall m: Meets | m.outcomes == OutcomesIn(log)
        ensures TickedTree(d, m) == d.(latches := Some(ticker.latches), published := ticker.published)
        ensures ticker.latches.Keys == at.latches.Keys
      {
        TreeIsTicked(d, tree, b, at, m);
      }
      assert ticker.latches.Keys == at.latches.Keys by {
        TreeIsTicked(d, tree, b, at, Meets(true, true, 0, true, true, OutcomesIn(log), true, true));
      }
      interpreter.latches, interpreter.published := Some(ticker.latches), ticker.published;
      indexes, world := ticker.indexes, ticker.world;
    }

    /** What comes before the tree: what was halted and the revision are
        written, and the graph lowered. */
    method Begin(m: Meets, carried: map<Uuid, nat>) returns (ok: bool, ghost restarted: set<Uuid>)
      requires Valid() && Stands(interpreter.c, interpreter.Now()) && CanTick(interpreter.c, interpreter.Now())
      modifies this`tree, this`indexes, interpreter, traces`traces
      ensures Valid() && Result(interpreter.Now(), ok) == ComesTo(interpreter.c, old(interpreter.Now()), m)
      ensures restarted == RestartedIn(interpreter.c, old(interpreter.Now()), old(interpreter.lowered), m)
      ensures traces.traces == RestartingAll(old(traces.traces), restarted)
      ensures indexes == IndexesIn(interpreter.c, old(interpreter.Now()), m, old(indexes), carried)
    {
      hide LoweredResult, RestartedBy, Relowers, Sound, T.Traces.Valid, RestartingAll, Stands, CanTick;
      RestartingNoneAll(traces.traces);
      WrittenCanTick(interpreter.c, interpreter.Now());
      ghost var d := interpreter.Now();
      if !m.haltsWritten {
        return false, {};
      }
      if interpreter.written != Some(interpreter.revision) {
        if !m.revisionWritten {
          return false, {};
        }
        interpreter.written := Some(interpreter.revision);
      }
      assert interpreter.Now() == Written(d);
      ok, restarted := Lower(m, carried);
    }

    /** What the tree did, to each trace. */
    method Report(log: Log, did: seq<(Uuid, T.Activity)>, clock: Option<nat>, outcomes: seq<T.Outcome>)
      returns (ok: bool)
      requires traces.Valid() && |outcomes| == |traces.traces|
      modifies traces
      ensures traces.Valid()
      ensures Reported(old(traces.traces), old(traces.heard), traces.traces, traces.heard, clock, outcomes, ticks,
                       interpreter.revision, log, did)
    {
      hide T.InStep, T.Turned, T.KeepsPace, T.Due, T.Recorded, RecordOf;
      ok := true;
      if traces.traces != [] {
        ok := traces.Report(ticks, interpreter.revision, RecordOf(log), did, clock, outcomes);
      }
    }

    /** The tree ticked, what it did reported, and the runs that ended swept. */
    method Through(m: Meets, b: Bridge<W>, did: seq<(Uuid, T.Activity)>, clock: Option<nat>, outcomes: seq<T.Outcome>)
      returns (ok: bool, log: Log, ghost met: Meets)
      requires Valid() && interpreter.latches.Some? && PullsNone(b, interpreter.latches.value.Keys)
      requires |outcomes| == |traces.traces|
      modifies this`indexes, this`world, interpreter, traces
      ensures Valid() && met == m.(outcomes := OutcomesIn(log), ticks := met.ticks, reports := met.reports)
      ensures Result(interpreter.Now(), ok) == TreeResult(old(interpreter.Now()), met)
      ensures var at := Cells(old(indexes), old(interpreter.latches).value, old(interpreter.published), old(world));
              var turn := TurnOf(tree, b, at);
              log == turn.log && met.ticks == (m.ticks && turn.answer.Tells?)
      ensures Reported(old(traces.traces), old(traces.heard), traces.traces, traces.heard, clock, outcomes, ticks,
                       interpreter.revision, log, did)
    {
      hide TurnOf, Sound, T.Traces.Valid, Reported, TickedTree, Swept, OutcomesIn, PullsNone;
      ghost var d := interpreter.Now();
      var answer;
      answer, log := TickTree(b);
      ok := Report(log, did, clock, outcomes);
      met := m.(outcomes := OutcomesIn(log), ticks := m.ticks && answer.Tells?, reports := ok);
      assert interpreter.Now() == TickedTree(d, met);
      if !(m.ticks && answer.Tells?) {
        ok := false;
        return;
      }
      interpreter.Sweep();
    }

    /**
     One tick: the device does what `Ticking` says of what the tick meets, the
     tree answering as its nodes do, and each trace has its turn.
     */
    method Tick(m: Meets, b: Bridge<W>, carried: map<Uuid, nat>, did: seq<(Uuid, T.Activity)>, clock: Option<nat>,
                outcomes: seq<T.Outcome>)
      returns (ok: bool, log: Log, ghost met: Meets)
      requires Valid() && Stands(interpreter.c, interpreter.Now()) && CanTick(interpreter.c, interpreter.Now())
      requires PullsNone(b, MayReach(interpreter.Now())) && |outcomes| == |traces.traces|
      modifies this`tree, this`indexes, this`world, this`ticks, interpreter, traces
      ensures Valid() && Stands(interpreter.c, interpreter.Now()) && CanTick(interpreter.c, interpreter.Now())
      ensures met == m.(outcomes := OutcomesIn(log), ticks := met.ticks, reports := met.reports)
      ensures Result(interpreter.Now(), ok) == TickResult(interpreter.c, old(interpreter.Now()), met)
      ensures var c, d := interpreter.c, old(interpreter.Now());
              var l, restarted := ComesTo(c, d, m), RestartedIn(c, d, old(interpreter.lowered), m);
              if !l.ok then log == [] && traces.traces == RestartingAll(old(traces.traces), restarted)
              else
                && l.device.latches.Some?
                && (var at := Cells(IndexesIn(c, d, m, old(indexes), carried), l.device.latches.value,
                                    l.device.published, old(world));
                    var turn := TurnOf(tree, b, at);
                    log == turn.log && met.ticks == (m.ticks && turn.answer.Tells?))
                && Reported(RestartingAll(old(traces.traces), restarted), old(traces.heard), traces.traces,
                            traces.heard, clock, outcomes, ticks, interpreter.revision, log, did)
    {
      hide TurnOf, Sound, T.Traces.Valid, Reported, TickedTree, Swept, OutcomesIn, RestartingAll, RestartedIn,
           IndexesIn, Stands, CanTick, LoweredResult, TreeResult;
      ghost var d := interpreter.Now();
      ticks := ticks + 1;
      ComesToFewer(interpreter.c, d, m);
      ComesToLatched(interpreter.c, d, m);
      var begun, _ := Begin(m, carried);
      if begun {
        ok, log, met := Through(m, b, did, clock, outcomes);
      } else {
        ok, log := false, [];
        met := m.(outcomes := OutcomesIn(log));
      }
      TickComesTo(interpreter.c, d, m, met);
      TickCanTick(interpreter.c, d, met);
    }
  }
}
