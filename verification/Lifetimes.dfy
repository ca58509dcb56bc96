/**
 Every operation, and every run of them: what stands, what a revision tells.

 `StepStands` and `StepFails` say for every operation, the one of those that
 succeed and the other of those that fail, exactly when a read answers the
 same or the revision advances.

 `Always` takes an invariant of each operation to every run of them.  Through
 it, `AlwaysStands` keeps what hangs hanging, `RevisionTells` makes of the
 revision what a client relies on, and `AlwaysSound` keeps the decorators the
 runner's alone.
 */
module Lifetimes {
  import opened Integers
  import opened Digraphs
  import opened Graphs
  import opened GraphEdits
  import opened Scaffolds
  import opened Grafts
  import opened Decorators
  import opened Respawns
  import opened ScaffoldEdits
  import opened Devices
  import opened Spawning
  import opened Ticking

  // Every operation.

  datatype Operation =
    | Edits(diff: GraphDiff)
    | Loads(graph: Graph)
    | SpawnsCall(run: Run, id: Uuid, call: Value)
    | Spawns(program: Graph, run: Run)
    | Halts(task: Uuid)
    | Ticks(meets: Meets)

  ghost predicate Steps(c: Config, d: Device, op: Operation, r: Result) {
    match op
    case Edits(diff) => r == ApplyResult(c, d, diff)
    case Loads(graph) => r == LoadResult(c, d, graph)
    case SpawnsCall(run, id, call) => r == SpawnResult(c, d, run.(detached := {}), id, call)
    case Spawns(program, run) => SpawnsGraph(c, d, program, run, r)
    case Halts(task) => r == HaltResult(c, d, task)
    case Ticks(meets) => r == TickResult(c, d, meets)
  }

  /** The ids an operation makes up are new. */
  ghost predicate MakesNewIds(d: Device, op: Operation) {
    match op
    case SpawnsCall(run, id, _) => Untaken(d, run.decorator) && id !in IdsOf(d.graph.nodes) && id != run.decorator
    case Spawns(program, run) => Untaken(d, run.decorator) && run.decorator !in IdsOf(program.nodes)
    case _ => true
  }

  /** A load names no run's decorator. */
  ghost predicate SparesRuns(d: Device, op: Operation) {
    op.Loads? ==> NamesNoDecorator(op.graph, DecoratorsOf(All(d)))
  }

  /** The one operation after which a read answers otherwise at the same
      revision: a graph spawned that its run already runs, leaving out a
      detached node the run alone kept, when pruning the finished runs did not
      advance the revision either. */
  ghost predicate Abandoning(c: Config, d: Device, op: Operation) {
    op.Spawns? && LosesNode(c, d, op.program)
  }

  ghost predicate LosesNode(c: Config, d: Device, program: Graph) {
    var f := FinishedResult(c, d);
    f.device.revision == d.revision && LetsGo(c, f.device, program)
  }

  lemma FinishedNodes(c: Config, d: Device)
    requires Stands(c, d)
    ensures IdsOf(FinishedResult(c, d).device.graph.nodes) <= IdsOf(d.graph.nodes)
    ensures All(FinishedResult(c, d).device) <= All(d)
    ensures ChildrenOf(FinishedResult(c, d).device.graph.nodes) <= ChildrenOf(d.graph.nodes) + IdsOf(d.graph.nodes)
  {
    var diff := FinishedGraph(c, d);
    if FinishedResult(c, d).device.graph != d.graph {
      PruneDiffNodes(c, d, diff);
    }
    FinishedLists(c, d);
    TakenOut(d.runs, d.finished);
  }

  /** The finished runs pruned change nothing, or leave the runner set again. */
  lemma FinishedGraph(c: Config, d: Device) returns (diff: GraphDiff)
    ensures var after := FinishedResult(c, d).device.graph;
            || after == d.graph
            || (Applied(d.graph, diff) == Some(after) && diff.set_ == [RunnerNode(c.runner, d.mainRoot, d.runs)])
  {
    var rest := d.(finished := []);
    assert rest.runs + rest.finished == d.runs;
    diff := PruneDiff(c, rest, ListOf(Pruned(rest.graph, c.runner, rest.mainRoot, SetOf(d.finished))));
  }

  /** What the runner holds once its finished runs leave are nodes. */
  lemma RunnersAreNodes(c: Config, d: Device)
    requires Stands(c, d)
    ensures SetOf(ChildList(RunnerNode(c.runner, d.mainRoot, d.runs))) <= IdsOf(d.graph.nodes)
  {
    RunnerHoldsAll(c.runner, d.mainRoot, d.runs);
    DecoratorsAreNodes(d.graph, c.runner, d.mainRoot, All(d));
    assert DecoratorsOf(SetOf(d.runs)) <= DecoratorsOf(All(d));
  }

  /** An edit that sets one node over nodes brings in no other. */
  lemma SetsOneNode(g: Graph, diff: GraphDiff, n: Node)
    requires UniqueIds(g.nodes) && Applied(g, diff).Some? && diff.set_ == [n]
    requires n.id in IdsOf(g.nodes) && SetOf(ChildList(n)) <= IdsOf(g.nodes)
    ensures IdsOf(Applied(g, diff).value.nodes) <= IdsOf(g.nodes)
    ensures ChildrenOf(Applied(g, diff).value.nodes) <= ChildrenOf(g.nodes) + IdsOf(g.nodes)
  {
    EditShape(g, diff);
    EditedChildrenOf(g, diff);
    assert IdsOf([n]) == {n.id} && ChildrenOf([n]) == SetOf(ChildList(n));
  }

  lemma PruneDiffNodes(c: Config, d: Device, diff: GraphDiff)
    requires Stands(c, d) && Applied(d.graph, diff).Some? && diff.set_ == [RunnerNode(c.runner, d.mainRoot, d.runs)]
    ensures IdsOf(Applied(d.graph, diff).value.nodes) <= IdsOf(d.graph.nodes)
    ensures ChildrenOf(Applied(d.graph, diff).value.nodes) <= ChildrenOf(d.graph.nodes) + IdsOf(d.graph.nodes)
  {
    RunnersAreNodes(c, d);
    SetsOneNode(d.graph, diff, diff.set_[0]);
  }

  lemma FinishedUntaken(c: Config, d: Device, id: Uuid)
    requires Stands(c, d) && Untaken(d, id)
    ensures Untaken(FinishedResult(c, d).device, id)
  {
    FinishedNodes(c, d);
    FinishedLists(c, d);
    assert DetachedOf(All(FinishedResult(c, d).device)) <= DetachedOf(All(d));
  }

  lemma RevisesOn(c: Config, a: Device, b: Device, d: Device)
    requires Revises(c, a, b) && Revises(c, b, d)
    ensures Revises(c, a, d)
  {
  }

  /** Every operation keeps what hangs hanging; one that succeeds leaves what a
      read answers or advances the revision exactly when it is not the one case. */
  lemma StepStands(c: Config, d: Device, op: Operation, r: Result)
    requires Stands(c, d) && Steps(c, d, op, r) && MakesNewIds(d, op)
    ensures Stands(c, r.device)
    ensures r.ok ==> (Revises(c, d, r.device) <==> !Abandoning(c, d, op))
  {
    hide Reach, MainGraph, Accepted, FinishedResult, LosesNode, Stands, SpawnsGraph, HaltResult, TickResult, ApplyNow,
         LoadNow, SpawnResult;
    var f := FinishedResult(c, d);
    FinishedStands(c, d);
    match op
    case Edits(diff) => ApplyStands(c, f.device, diff);
    case Loads(graph) => LoadStands(c, f.device, graph);
    case SpawnsCall(run, id, call) => CallStands(c, d, run.(detached := {}), id, call);
    case Spawns(program, run) => GraphStands(c, d, program, run, r);
    case Halts(task) => HaltStands(c, d, task);
    case Ticks(meets) => TickStands(c, d, meets);
  }

  lemma CallStands(c: Config, d: Device, run: Run, id: Uuid, call: Value)
    requires Stands(c, d) && Untaken(d, run.decorator) && id !in IdsOf(d.graph.nodes) && id != run.decorator
    requires run.detached == {}
    ensures var r := SpawnResult(c, d, run, id, call); Stands(c, r.device) && (r.ok ==> Revises(c, d, r.device))
  {
    var f := FinishedResult(c, d);
    FinishedStands(c, d);
    FinishedUntaken(c, d, run.decorator);
    FinishedNodes(c, d);
    CallIsFragment(f.device.graph, run, id, call);
    GraftingStands(c, f.device, CallFragment(run, id, call), run);
  }

  lemma GraphStands(c: Config, d: Device, graph: Graph, run: Run, r: Result)
    requires Stands(c, d) && Untaken(d, run.decorator) && run.decorator !in IdsOf(graph.nodes)
    requires SpawnsGraph(c, d, graph, run, r)
    ensures Stands(c, r.device)
    ensures r.ok ==> (Revises(c, d, r.device) <==> !LosesNode(c, d, graph))
  {
    hide Reach, MainGraph, Accepted, IsTree, ReadsWithin, FinishedResult, SpawnsNow, LetsGo, Stands;
    var f := FinishedResult(c, d);
    FinishedStands(c, d);
    FinishedUntaken(c, d, run.decorator);
    if Spawnable(c, graph) && f.ok {
      SpawnStands(c, f.device, graph, run, r);
      SpawnAdvances(c, f.device, graph, run, r);
    }
  }

  // Operations that fail.

  /** Nodes only the runs that left kept from being the main behavior's. */
  ghost predicate LeavesBehind(c: Config, d: Device, left: set<Run>) {
    exists id :: id in IdsOf(d.graph.nodes) && id != c.runner
                 && id !in Reach(Children(ById(d.graph.nodes)), RootSet(d.mainRoot))
                 && id in HeldBy(Children(ById(d.graph.nodes)), All(d))
                 && id !in HeldBy(Children(ById(d.graph.nodes)), left)
  }

  lemma FewerTells(c: Config, d: Device, after: Device)
    requires UniqueIds(d.graph.nodes) && after.graph == d.graph && after.mainRoot == d.mainRoot && All(after) <= All(d)
    ensures MainOf(c, after) == MainOf(c, d) <==> !LeavesBehind(c, d, All(after))
  {
    hide Reach;
    var edges, ids := Children(ById(d.graph.nodes)), IdsOf(d.graph.nodes);
    var main := Reach(edges, RootSet(d.mainRoot));
    HeldFewer(edges, All(d), All(after));
    KeptTells(d.graph.nodes, NotMain(edges, c.runner, d.mainRoot, All(after)),
              NotMain(edges, c.runner, d.mainRoot, All(d)));
    SameWithout(ids, HeldBy(edges, All(d)), HeldBy(edges, All(after)), main, c.runner);
  }

  lemma HeldFewer(edges: Edges<Uuid>, runs: set<Run>, fewer: set<Run>)
    requires fewer <= runs
    ensures HeldBy(edges, fewer) <= HeldBy(edges, runs)
  {
    assert DecoratorsOf(fewer) <= DecoratorsOf(runs) && DetachedOf(fewer) <= DetachedOf(runs);
    ReachGrows(edges, DecoratorsOf(fewer), DecoratorsOf(runs));
  }

  lemma SameWithout<T>(ids: set<T>, more: set<T>, less: set<T>, main: set<T>, runner: T)
    requires less <= more
    ensures ids * (less - main + {runner}) == ids * (more - main + {runner})
            <==> !exists id :: id in ids && id != runner && id !in main && id in more && id !in less
  {
    if ids * (less - main + {runner}) == ids * (more - main + {runner}) {
      forall id | id in ids && id != runner && id !in main && id in more ensures id in less {
        assert id in ids * (more - main + {runner});
      }
    }
  }

  /** A prune of `gone`, out of the lists of `d` already, would be refused. */
  ghost predicate PruneRefused(c: Config, d: Device, gone: seq<Run>) {
    var pruned := Pruned(d.graph, c.runner, d.mainRoot, SetOf(gone));
    gone != [] && !Accepted(c.runner, c.Lowers(d.functions), d.graph, PruneDiff(c, d, ListOf(pruned)), false)
  }

  function WithoutRun(d: Device, at: nat): Device
    requires at < |d.runs|
  {
    d.(runs := d.runs[..at] + d.runs[at + 1..])
  }

  /** The device has a live run of that id, whose prune would be refused. */
  ghost predicate HaltRefused(c: Config, d: Device, task: Uuid) {
    var at := RunOf(d.runs, task);
    at < |d.runs| && PruneRefused(c, WithoutRun(d, at), [d.runs[at]])
  }

  /** The device has finished runs, whose prune would be refused. */
  ghost predicate FinishedRefused(c: Config, d: Device) {
    PruneRefused(c, d.(finished := []), d.finished)
  }

  /** What an operation would prune is refused: a halt its run, any other the
      finished runs, if it comes to pruning them. */
  ghost predicate Refused(c: Config, d: Device, op: Operation) {
    match op
    case Halts(task) => HaltRefused(c, d, task)
    case Spawns(program, _) => Spawnable(c, program) && FinishedRefused(c, d)
    case Ticks(m) =>
      m.haltsWritten && (d.written == Some(d.revision) || m.revisionWritten) && d.dirty && FinishedRefused(c, d)
    case _ => FinishedRefused(c, d)
  }

  /** The runs an operation keeps in the lists. */
  function RunsLeft(d: Device, op: Operation): set<Run> {
    if op.Halts? then
      var at := RunOf(d.runs, op.task);
      if at < |d.runs| then All(WithoutRun(d, at)) else All(d)
    else All(d.(finished := []))
  }

  /** A prune is refused, and the runs it was of held nodes that are neither
      the main behavior's nor held by the runs left. */
  ghost predicate Stranding(c: Config, d: Device, op: Operation) {
    Refused(c, d, op) && LeavesBehind(c, d, RunsLeft(d, op))
  }

  lemma FinishedRefuses(c: Config, d: Device)
    ensures FinishedResult(c, d).ok <==> !FinishedRefused(c, d)
  {
    hide Reach, MainGraph, Accepted, Pruned;
  }

  lemma HaltRefuses(c: Config, d: Device, task: Uuid)
    ensures HaltResult(c, d, task).ok <==> !HaltRefused(c, d, task)
  {
    hide Reach, MainGraph, Accepted, Pruned;
  }

  lemma FinishedFails(c: Config, d: Device)
    requires Stands(c, d)
    ensures Revises(c, d, FinishedResult(c, d).device)
            <==> !(FinishedRefused(c, d) && LeavesBehind(c, d, All(d.(finished := []))))
  {
    hide Reach, MainGraph, Accepted, LeavesBehind, FinishedRefused;
    FinishedRefuses(c, d);
    if FinishedResult(c, d).ok {
      FinishedStands(c, d);
    } else {
      TakenOut(d.runs, d.finished);
      FewerTells(c, d, d.(finished := []));
    }
  }

  lemma PruneFails(c: Config, d: Device, gone: seq<Run>, all: set<Run>)
    requires !PruneResult(c, d, gone, all).ok
    ensures PruneResult(c, d, gone, all).device == d
  {
    hide Reach, MainGraph, Accepted, Pruned;
  }

  lemma HaltLeaves(c: Config, d: Device, task: Uuid)
    requires !HaltResult(c, d, task).ok
    ensures var at := RunOf(d.runs, task);
            at < |d.runs| && HaltResult(c, d, task).device == WithoutRun(d, at)
  {
    hide Reach, MainGraph, Accepted, PruneResult;
    var at := RunOf(d.runs, task);
    if at < |d.runs| {
      PruneFails(c, WithoutRun(d, at), [d.runs[at]], All(d));
    }
  }

  lemma HaltFails(c: Config, d: Device, task: Uuid)
    requires Stands(c, d) && !HaltResult(c, d, task).ok
    ensures Revises(c, d, HaltResult(c, d, task).device) <==> !Stranding(c, d, Halts(task))
  {
    hide Reach, MainGraph, Accepted, LeavesBehind, HaltResult, HaltRefused, All;
    HaltRefuses(c, d, task);
    HaltLeaves(c, d, task);
    OneLeft(d, RunOf(d.runs, task));
    FewerTells(c, d, HaltResult(c, d, task).device);
  }

  lemma OneLeft(d: Device, at: nat)
    requires at < |d.runs|
    ensures All(WithoutRun(d, at)) <= All(d)
  {
    OneTakenOut(d.runs, d.finished, at);
  }

  lemma LoweringFails(c: Config, d: Device, f: Result, m: Meets)
    requires f.ok ==> Revises(c, d, f.device)
    ensures var l := LoweredAfter(f, m); Revises(c, d, l.device) <==> Revises(c, d, f.device)
  {
    hide Reach, MainGraph;
    var l := Lowering(f.device, m.functions);
    LoweringAlike(c, f.device, m.functions);
    WrittenAlike(c, l);
  }

  /** Writing the revision changes nothing a prune depends on. */
  lemma WrittenRefuses(c: Config, d: Device)
    ensures FinishedRefused(c, Written(d)) == FinishedRefused(c, d)
    ensures LeavesBehind(c, Written(d), All(Written(d).(finished := []))) == LeavesBehind(c, d, All(d.(finished := [])))
  {
    hide Reach, Accepted, Pruned, HeldBy;
  }

  lemma TickFails(c: Config, d: Device, m: Meets)
    requires Stands(c, d) && !TickResult(c, d, m).ok
    ensures Revises(c, d, TickResult(c, d, m).device) <==> !Stranding(c, d, Ticks(m))
  {
    hide Reach, MainGraph, Accepted, LeavesBehind, FinishedResult, TreeResult, LoweredAfter, FinishedRefused, Stands,
         All;
    var w := Written(d);
    WrittenRefuses(c, d);
    WrittenAlike(c, d);
    FinishedFails(c, w);
    FinishedStands(c, w);
    LoweringFails(c, w, FinishedResult(c, w), m);
    LoweredStands(c, w, m);
    var l := LoweredResult(c, w, m);
    if l.ok {
      TreeStands(c, l.device, m);
    }
  }

  /** A spawn that fails leaves the device as the finished runs' prune did. */
  lemma SpawnFails(c: Config, d: Device, graph: Graph, run: Run, r: Result)
    requires graph.root.Some? && SpawnsNow(c, d, graph, run, r) && !r.ok
    ensures r.device == d
  {
    hide Reach, MainGraph, Accepted;
  }

  /** An edit, a load and a call that fail leave the device as the finished
      runs' prune did. */
  lemma EditFails(c: Config, d: Device, diff: GraphDiff)
    requires !ApplyResult(c, d, diff).ok
    ensures ApplyResult(c, d, diff).device == FinishedResult(c, d).device
  {
    hide Reach, MainGraph, Accepted, FinishedResult, Refuses;
  }

  lemma LoadFails(c: Config, d: Device, graph: Graph)
    requires !LoadResult(c, d, graph).ok
    ensures LoadResult(c, d, graph).device == FinishedResult(c, d).device
  {
    hide Reach, MainGraph, Accepted, FinishedResult, Loadable;
  }

  lemma CallFails(c: Config, d: Device, run: Run, id: Uuid, call: Value)
    requires !SpawnResult(c, d, run, id, call).ok
    ensures SpawnResult(c, d, run, id, call).device == FinishedResult(c, d).device
  {
    hide Reach, MainGraph, Accepted, FinishedResult;
  }

  /**
   An operation that fails leaves what a read answers, at the same revision,
   exactly when no prune it would make is refused that leaves nodes of its runs
   behind.
   */
  lemma StepFails(c: Config, d: Device, op: Operation, r: Result)
    requires Stands(c, d) && Steps(c, d, op, r) && !r.ok
    ensures Revises(c, d, r.device) <==> !Stranding(c, d, op)
  {
    hide Reach, MainGraph, Accepted, LeavesBehind, FinishedResult, TickResult, HaltResult, Spawnable, SpawnsNow,
         FinishedRefused, HaltRefused, ApplyResult, LoadResult, SpawnResult, SpawnsGraph, All;
    FinishedFails(c, d);
    match op
    case Edits(diff) => EditFails(c, d, diff);
    case Loads(graph) => LoadFails(c, d, graph);
    case SpawnsCall(run, id, call) => CallFails(c, d, run.(detached := {}), id, call);
    case Spawns(program, run) => GraphFails(c, d, program, run, r);
    case Halts(task) => HaltFails(c, d, task);
    case Ticks(m) => TickFails(c, d, m);
  }

  /** The runs and the main behavior hang, and the runner alone holds the
      decorators, none listed twice. */
  ghost predicate Sound(c: Config, d: Device) {
    Stands(c, d) && Orderly(d) && Guarded(c, d)
  }

  /** While the runner alone holds the decorators, a run taken out of the lists
      leaves its decorator behind. */
  lemma DecoratorIsLeft(c: Config, d: Device, gone: set<Run>, left: set<Run>)
    requires Stands(c, d) && Guarded(c, d) && gone <= All(d) && left <= All(d) && gone != {}
    requires DecoratorsOf(gone) !! DecoratorsOf(left)
    ensures LeavesBehind(c, d, left)
  {
    hide Reach;
    var edges := Children(ById(d.graph.nodes));
    var run :| run in gone;
    HangingReachesNodes(d.graph, c.runner, d.mainRoot, All(d));
    DecoratorsAreNodes(d.graph, c.runner, d.mainRoot, All(d));
    FewerRuns(d.graph, c.runner, d.mainRoot, All(d), gone);
    FewerRuns(d.graph, c.runner, d.mainRoot, All(d), left);
    ReachGrows(edges, DecoratorsOf(left), DecoratorsOf(All(d)));
    DecoratorsAreApart(d.graph, c.runner, d.mainRoot, All(d), RootSet(d.mainRoot));
    DecoratorsAreApart(d.graph, c.runner, d.mainRoot, gone, DecoratorsOf(left));
    assert run.decorator in DecoratorsOf(gone) && run.decorator in DecoratorsOf(All(d));
    assert DetachedOf(left) <= DetachedOf(All(d));
  }

  lemma HaltLeavesOne(c: Config, d: Device, task: Uuid)
    requires Sound(c, d) && RunOf(d.runs, task) < |d.runs|
    ensures LeavesBehind(c, d, RunsLeft(d, Halts(task)))
  {
    hide Reach, Stands, Guarded, LeavesBehind;
    var at := RunOf(d.runs, task);
    OneTakenOut(d.runs, d.finished, at);
    assert d.runs[at] in SetOf([d.runs[at]]);
    DecoratorIsLeft(c, d, SetOf([d.runs[at]]), All(WithoutRun(d, at)));
  }

  lemma FinishedLeaveOne(c: Config, d: Device)
    requires Sound(c, d) && d.finished != []
    ensures LeavesBehind(c, d, All(d.(finished := [])))
  {
    hide Reach, Stands, Guarded, LeavesBehind;
    TakenOut(d.runs, d.finished);
    assert d.finished[0] in SetOf(d.finished);
    DecoratorIsLeft(c, d, SetOf(d.finished), SetOf(d.runs));
  }

  /**
   While the runner alone holds the decorators, an operation that fails leaves
   what a read answers, at the same revision, exactly when no prune it would
   make is refused: a refused one always leaves a decorator behind.
   */
  lemma SoundFails(c: Config, d: Device, op: Operation, r: Result)
    requires Sound(c, d) && Steps(c, d, op, r) && !r.ok
    ensures Revises(c, d, r.device) <==> !Refused(c, d, op)
  {
    hide Reach, MainGraph, Accepted, LeavesBehind, Steps, Spawnable, Pruned, RunsLeft;
    StepFails(c, d, op, r);
    if Refused(c, d, op) {
      if op.Halts? {
        HaltLeavesOne(c, d, op.task);
      } else {
        FinishedLeaveOne(c, d);
        assert RunsLeft(d, op) == All(d.(finished := [])) by {
          OthersKeepRuns(d, op);
        }
      }
    }
  }

  lemma OthersKeepRuns(d: Device, op: Operation)
    requires !op.Halts?
    ensures RunsLeft(d, op) == All(d.(finished := []))
  {
  }

  lemma GraphFails(c: Config, d: Device, graph: Graph, run: Run, r: Result)
    requires Stands(c, d) && SpawnsGraph(c, d, graph, run, r) && !r.ok
    ensures Revises(c, d, r.device) <==>
            !(Spawnable(c, graph) && FinishedRefused(c, d) && LeavesBehind(c, d, All(d.(finished := []))))
  {
    hide Reach, MainGraph, Accepted, FinishedResult, SpawnsNow, FinishedRefused, LeavesBehind, IsTree, ReadsWithin;
    FinishedFails(c, d);
    FinishedStands(c, d);
    if Spawnable(c, graph) && FinishedResult(c, d).ok {
      SpawnFails(c, FinishedResult(c, d).device, graph, run, r);
    }
  }

  /** Every operation but a load that names a decorator keeps the decorators
      the runner's alone. */
  lemma StepGuarded(c: Config, d: Device, op: Operation, r: Result)
    requires Stands(c, d) && Orderly(d) && Guarded(c, d)
    requires Steps(c, d, op, r) && MakesNewIds(d, op) && SparesRuns(d, op)
    ensures Orderly(r.device) && Guarded(c, r.device)
  {
    match op
    case Edits(diff) => EditGuarded(c, d, diff);
    case Loads(graph) => LoadingGuarded(c, d, graph);
    case SpawnsCall(run, id, call) => CallGuarded(c, d, run.(detached := {}), id, call);
    case Spawns(program, run) => GraphGuarded(c, d, program, run, r);
    case Halts(task) => HaltGuarded(c, d, task);
    case Ticks(meets) => TickGuarded(c, d, meets);
  }

  lemma EditGuarded(c: Config, d: Device, diff: GraphDiff)
    requires Stands(c, d) && Orderly(d) && Guarded(c, d)
    ensures Orderly(ApplyResult(c, d, diff).device) && Guarded(c, ApplyResult(c, d, diff).device)
  {
    FinishedStands(c, d);
    FinishedGuarded(c, d);
    ApplyAfterGuarded(c, FinishedResult(c, d), diff);
  }

  lemma ApplyAfterGuarded(c: Config, f: Result, diff: GraphDiff)
    requires Stands(c, f.device) && Orderly(f.device) && Guarded(c, f.device)
    ensures Orderly(ApplyAfter(c, f, diff).device) && Guarded(c, ApplyAfter(c, f, diff).device)
  {
    ApplyGuarded(c, f.device, diff);
    ApplyOrderly(c, f.device, diff);
  }

  lemma ApplyOrderly(c: Config, d: Device, diff: GraphDiff)
    requires Orderly(d)
    ensures Orderly(ApplyNow(c, d, diff).device)
  {
  }

  lemma LoadingGuarded(c: Config, d: Device, graph: Graph)
    requires Stands(c, d) && Orderly(d) && Guarded(c, d) && NamesNoDecorator(graph, DecoratorsOf(All(d)))
    ensures Orderly(LoadResult(c, d, graph).device) && Guarded(c, LoadResult(c, d, graph).device)
  {
    FinishedStands(c, d);
    FinishedGuarded(c, d);
    FinishedNodes(c, d);
    assert DecoratorsOf(All(FinishedResult(c, d).device)) <= DecoratorsOf(All(d));
    LoadAfterGuarded(c, FinishedResult(c, d), graph);
  }

  lemma LoadAfterGuarded(c: Config, f: Result, graph: Graph)
    requires Stands(c, f.device) && Orderly(f.device) && Guarded(c, f.device)
    requires NamesNoDecorator(graph, DecoratorsOf(All(f.device)))
    ensures Orderly(LoadAfter(c, f, graph).device) && Guarded(c, LoadAfter(c, f, graph).device)
  {
    hide Reach, MainGraph, Accepted, Applied, Restarted, Loadable, Guarded;
    if f.ok && LoadNow(c, f.device, graph).ok {
      LoadGuarded(c, f.device, graph);
    }
  }

  lemma CallGuarded(c: Config, d: Device, run: Run, id: Uuid, call: Value)
    requires Stands(c, d) && Orderly(d) && Guarded(c, d)
    requires Untaken(d, run.decorator) && id !in IdsOf(d.graph.nodes) && id != run.decorator && run.detached == {}
    ensures Orderly(SpawnResult(c, d, run, id, call).device) && Guarded(c, SpawnResult(c, d, run, id, call).device)
  {
    FinishedStands(c, d);
    FinishedGuarded(c, d);
    FinishedUntaken(c, d, run.decorator);
    FinishedNodes(c, d);
    CallAfterGuarded(c, FinishedResult(c, d), run, id, call);
  }

  lemma CallAfterGuarded(c: Config, f: Result, run: Run, id: Uuid, call: Value)
    requires Stands(c, f.device) && Orderly(f.device) && Guarded(c, f.device)
    requires Untaken(f.device, run.decorator) && id !in IdsOf(f.device.graph.nodes) && id != run.decorator
    requires run.detached == {}
    ensures Orderly(SpawnAfter(c, f, run, id, call).device) && Guarded(c, SpawnAfter(c, f, run, id, call).device)
  {
    CallIsFragment(f.device.graph, run, id, call);
    GraftingGuarded(c, f.device, [CallNode(id, call)], id, run);
  }

  lemma GraphGuarded(c: Config, d: Device, graph: Graph, run: Run, r: Result)
    requires Stands(c, d) && Orderly(d) && Guarded(c, d)
    requires Untaken(d, run.decorator) && run.decorator !in IdsOf(graph.nodes) && SpawnsGraph(c, d, graph, run, r)
    ensures Orderly(r.device) && Guarded(c, r.device)
  {
    var f := FinishedResult(c, d);
    FinishedStands(c, d);
    FinishedGuarded(c, d);
    FinishedUntaken(c, d, run.decorator);
    if Spawnable(c, graph) && f.ok {
      SpawnGuarded(c, f.device, graph, run, r);
    }
  }

  // Every run of operations.

  /** The interpreter as it starts: a runner over nothing. */
  function Initial(c: Config): Device {
    Device(Graph(Some(c.runner), [RunnerNode(c.runner, None, [])]), None, [], [], true, {}, 0, None, None, map[],
           0)
  }

  lemma InitialStands(c: Config)
    ensures Stands(c, Initial(c)) && Orderly(Initial(c)) && Guarded(c, Initial(c))
  {
    var d, rn := Initial(c), RunnerNode(c.runner, None, []);
    assert d.graph.nodes[0] == rn;
    NextOf(d.graph.nodes, rn);
    ReachIsLeast(Children(ById(d.graph.nodes)), {}, {});
    assert ChildList(rn) == [];
    assert NextSet(Children(ById(d.graph.nodes)), c.runner) == {};
    assert DecoratorsOf(All(d)) == {} && DetachedOf(All(d)) == {};
  }

  lemma InitialIsOne(c: Config)
    ensures var d := Initial(c);
            && UniqueIds(d.graph.nodes) && IdsOf(d.graph.nodes) == {c.runner} && ChildrenOf(d.graph.nodes) == {}
            && DetachedOf(All(d)) == {}
  {
    var d := Initial(c);
    assert d.graph.nodes[0].id == c.runner && ChildList(d.graph.nodes[0]) == [];
    assert All(d) == {};
  }

  lemma NothingFinished(c: Config, d: Device)
    requires d.finished == []
    ensures FinishedResult(c, d) == Result(d, true)
  {
    hide Reach, MainGraph, Accepted, Pruned;
  }

  /** An operation took the device from one state to the next. */
  ghost predicate Goes(c: Config, d: Device, op: Operation, after: Device) {
    MakesNewIds(d, op) && exists ok :: Steps(c, d, op, Result(after, ok))
  }

  // An invariant of every step holds throughout.

  ghost predicate StepAt<S(!new), O(!new)>(go: (S, O, S) -> bool, ds: seq<S>, ops: seq<O>, i: nat) {
    i < |ops| && i + 1 < |ds| && go(ds[i], ops[i], ds[i + 1])
  }

  ghost predicate StepsFrom<S(!new), O(!new)>(go: (S, O, S) -> bool, ds: seq<S>, ops: seq<O>, i: nat, j: nat) {
    i <= j <= |ops| && |ds| == |ops| + 1 && forall k: nat :: i <= k < j ==> StepAt(go, ds, ops, k)
  }

  ghost predicate KeptBy<S(!new), O(!new)>(inv: S -> bool, go: (S, O, S) -> bool) {
    forall d, op, after :: inv(d) && go(d, op, after) ==> inv(after)
  }

  lemma {:induction false} Always<S(!new), O(!new)>(inv: S -> bool, go: (S, O, S) -> bool, ds: seq<S>, ops: seq<O>,
                                                    i: nat, j: nat, k: nat)
    requires StepsFrom(go, ds, ops, i, j) && KeptBy(inv, go) && inv(ds[i]) && i <= k <= j
    ensures inv(ds[k])
    decreases k
  {
    if i < k {
      Always(inv, go, ds, ops, i, j, k - 1);
      assert StepAt(go, ds, ops, k - 1);
    }
  }

  // What holds of a device throughout.

  ghost function Going(c: Config): (Device, Operation, Device) -> bool {
    (d, op, after) => Goes(c, d, op, after)
  }

  /** The devices go from one to the next by the operations. */
  ghost predicate Lives(c: Config, ds: seq<Device>, ops: seq<Operation>) {
    StepsFrom(Going(c), ds, ops, 0, |ops|) && Stands(c, ds[0])
  }

  lemma GoingStands(c: Config, d: Device, op: Operation, after: Device)
    requires Stands(c, d) && Goes(c, d, op, after)
    ensures Stands(c, after)
  {
    var ok :| Steps(c, d, op, Result(after, ok));
    StepStands(c, d, op, Result(after, ok));
  }

  lemma GoingGuarded(c: Config, d: Device, op: Operation, after: Device)
    requires Stands(c, d) && Orderly(d) && Guarded(c, d) && Goes(c, d, op, after) && SparesRuns(d, op)
    ensures Orderly(after) && Guarded(c, after)
  {
    var ok :| Steps(c, d, op, Result(after, ok));
    StepGuarded(c, d, op, Result(after, ok));
  }

  /** Every run keeps what hangs hanging. */
  lemma AlwaysStands(c: Config, ds: seq<Device>, ops: seq<Operation>, k: nat)
    requires Lives(c, ds, ops) && k <= |ops|
    ensures Stands(c, ds[k])
  {
    var inv := (d: Device) => Stands(c, d);
    forall d, op, after | inv(d) && Going(c)(d, op, after) ensures inv(after) {
      GoingStands(c, d, op, after);
    }
    Always(inv, Going(c), ds, ops, 0, |ops|, k);
  }

  /** An operation that succeeds, and abandons no node. */
  ghost function DoingWell(c: Config): (Device, Operation, Device) -> bool {
    (d, op, after) => MakesNewIds(d, op) && Steps(c, d, op, Result(after, true)) && !Abandoning(c, d, op)
  }

  /** A read answers the same at the same revision, through any operations that
      succeed but a graph spawned again that abandons a node. */
  lemma RevisionTells(c: Config, ds: seq<Device>, ops: seq<Operation>, i: nat, j: nat)
    requires StepsFrom(DoingWell(c), ds, ops, i, j) && Stands(c, ds[i])
    ensures Revises(c, ds[i], ds[j])
  {
    var start := ds[i];
    var inv := (d: Device) => Stands(c, d) && Revises(c, start, d);
    forall d, op, after | inv(d) && DoingWell(c)(d, op, after) ensures inv(after) {
      StepStands(c, d, op, Result(after, true));
      RevisesOn(c, start, d, after);
    }
    Always(inv, DoingWell(c), ds, ops, i, j, j);
  }

  /** An operation that is no load naming a run's decorator. */
  ghost function Sparing(c: Config): (Device, Operation, Device) -> bool {
    (d, op, after) => Goes(c, d, op, after) && SparesRuns(d, op)
  }

  lemma SparingKeeps(c: Config, d: Device, op: Operation, after: Device)
    requires Sound(c, d) && Sparing(c)(d, op, after)
    ensures Sound(c, after)
  {
    GoingStands(c, d, op, after);
    GoingGuarded(c, d, op, after);
  }

  /** While no load names a run's decorator, the runner alone holds them. */
  lemma AlwaysSound(c: Config, ds: seq<Device>, ops: seq<Operation>, i: nat, j: nat)
    requires StepsFrom(Sparing(c), ds, ops, i, j) && Sound(c, ds[i])
    ensures Sound(c, ds[j])
  {
    var inv := (d: Device) => Sound(c, d);
    forall d, op, after | inv(d) && Sparing(c)(d, op, after) ensures inv(after) {
      SparingKeeps(c, d, op, after);
    }
    Always(inv, Sparing(c), ds, ops, i, j, j);
  }
}
