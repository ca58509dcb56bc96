/**
 What a graph must be for its tree to be registered and ticked: acyclic under
 the runner, each run's decorator a run-status node over its program.  Every
 operation leaves it so.
 */
module Tickable {
  import opened Integers
  import opened Digraphs
  import opened Graphs
  import opened GraphEdits
  import opened Scaffolds
  import opened Grafts
  import opened Decorators
  import opened Respawns
  import opened ScaffoldEdits
  import opened Devices
  import opened Spawning
  import opened Ticking
  import opened Lifetimes
  import opened Latching

  /** What hangs from the runner is acyclic, and lowered unless it changed. */
  ghost predicate HasTree(c: Config, d: Device) {
    AcyclicUnder(Children(ById(d.graph.nodes)), c.runner) && (d.dirty || d.latches.Some?)
  }

  lemma InitialHasTree(c: Config)
    ensures HasTree(c, Initial(c))
  {
    hide Reach;
    var d := Initial(c);
    var edges := Children(ById(d.graph.nodes));
    ByIdFinds(d.graph.nodes, d.graph.nodes[0]);
    assert Next(edges, c.runner) == [] && NextSet(edges, c.runner) == {};
    ReachIsLeast(edges, {c.runner}, {c.runner});
    ReachIsLeast(edges, {}, {});
  }

  lemma PruneHasTree(c: Config, d: Device, gone: seq<Run>, all: set<Run>)
    requires HasTree(c, d)
    ensures HasTree(c, PruneResult(c, d, gone, all).device)
  {
    hide AcyclicUnder, Reach;
  }

  lemma FinishedHasTree(c: Config, d: Device)
    requires HasTree(c, d)
    ensures HasTree(c, FinishedResult(c, d).device)
  {
    hide AcyclicUnder, PruneResult;
    PruneHasTree(c, d.(finished := []), d.finished, All(d));
  }

  lemma HaltHasTree(c: Config, d: Device, task: Uuid)
    requires HasTree(c, d)
    ensures HasTree(c, HaltResult(c, d, task).device)
  {
    hide AcyclicUnder, PruneResult;
    var at := RunOf(d.runs, task);
    if at < |d.runs| {
      PruneHasTree(c, d.(runs := d.runs[..at] + d.runs[at + 1..]), [d.runs[at]], All(d));
    }
  }

  lemma ApplyHasTree(c: Config, d: Device, diff: GraphDiff)
    requires HasTree(c, d)
    ensures HasTree(c, ApplyNow(c, d, diff).device)
  {
    hide AcyclicUnder, Reach, MainGraph, Applied, Restarted, Refuses;
  }

  lemma LoadHasTree(c: Config, d: Device, graph: Graph)
    requires HasTree(c, d)
    ensures HasTree(c, LoadNow(c, d, graph).device)
  {
    hide AcyclicUnder, Reach, MainGraph, Applied, Restarted, Loadable;
  }

  lemma RespawnHasTree(c: Config, d: Device, at: nat, program: Graph, diff: GraphDiff)
    requires at < |d.runs| && program.root.Some? && HasTree(c, d)
    ensures HasTree(c, RespawnResult(c, d, at, program, diff).device)
  {
    hide AcyclicUnder, Reach, MainGraph, NamesItsOwn, Applied, Restarted;
  }

  lemma GraftHasTree(c: Config, d: Device, fragment: seq<Node>, run: Run)
    requires HasTree(c, d)
    ensures HasTree(c, GraftResult(c, d, fragment, run).device)
  {
    hide AcyclicUnder, Reach, MainGraph, Applied, Restarted;
  }

  lemma SpawnHasTree(c: Config, d: Device, program: Graph, run: Run, r: Result)
    requires program.root.Some? && HasTree(c, d) && SpawnsNow(c, d, program, run, r)
    ensures HasTree(c, r.device)
  {
    hide AcyclicUnder, HasTree, RespawnResult, GraftResult, RunRooted, Respawning, GraphFragment, WithDetached;
    var at := RunRooted(d.graph, d.runs, program.root.value);
    if at < |d.runs| {
      var diff :| Respawning(c, d, at, program, diff) && r == RespawnResult(c, d, at, program, diff);
      RespawnHasTree(c, d, at, program, diff);
    } else {
      GraftHasTree(c, d, GraphFragment(program, WithDetached(run, program)), WithDetached(run, program));
    }
  }

  lemma TickHasTree(c: Config, d: Device, m: Meets)
    requires HasTree(c, d)
    ensures HasTree(c, TickResult(c, d, m).device)
  {
    hide AcyclicUnder, FinishedResult;
    FinishedHasTree(c, Written(d));
  }

  /** Every operation leaves it so. */
  lemma StepHasTree(c: Config, d: Device, op: Operation, r: Result)
    requires HasTree(c, d) && Steps(c, d, op, r)
    ensures HasTree(c, r.device)
  {
    hide AcyclicUnder, FinishedResult, TickResult, HaltResult, SpawnsNow, GraftResult, IsTree, ReadsWithin, HasTree,
         ApplyNow, LoadNow;
    var f := FinishedResult(c, d);
    FinishedHasTree(c, d);
    match op
    case Edits(diff) => ApplyHasTree(c, f.device, diff);
    case Loads(graph) => LoadHasTree(c, f.device, graph);
    case SpawnsCall(run, id, call) =>
      GraftHasTree(c, f.device, CallFragment(run.(detached := {}), id, call), run.(detached := {}));
    case Spawns(program, run) =>
      if Spawnable(c, program) && f.ok {
        SpawnHasTree(c, f.device, program, run, r);
      }
    case Halts(task) => HaltHasTree(c, d, task);
    case Ticks(meets) => TickHasTree(c, d, meets);
  }

  /** A device whose tree can be ticked. */
  ghost predicate CanTick(c: Config, d: Device) {
    HasTree(c, d) && AllLatched(d)
  }

  lemma InitialCanTick(c: Config)
    ensures Sound(c, Initial(c)) && CanTick(c, Initial(c))
  {
    InitialStands(c);
    InitialLatched(c);
    InitialHasTree(c);
  }

  lemma SparingCanTick(c: Config, d: Device, op: Operation, after: Device)
    requires Sound(c, d) && CanTick(c, d) && Sparing(c)(d, op, after)
    ensures Sound(c, after) && CanTick(c, after)
  {
    hide Stands, Orderly, Guarded, Latched, HasTree, Relists, Steps, MakesNewIds;
    SparingKeeps(c, d, op, after);
    var ok :| Steps(c, d, op, Result(after, ok));
    StepHasTree(c, d, op, Result(after, ok));
    forall decorator | decorator in DecoratorsOf(All(after)) ensures Latched(after, decorator) {
      if decorator in DecoratorsOf(All(d)) {
        GuardedRelistsNone(c, d, op, Result(after, ok), decorator);
        StepKeeps(c, d, op, Result(after, ok), decorator);
      } else {
        StepBrings(c, d, op, Result(after, ok), decorator);
      }
    }
  }

  /** Through operations whose loads name no run's decorator, the tree can be
      ticked and the runner alone holds the decorators. */
  lemma AlwaysCanTick(c: Config, ds: seq<Device>, ops: seq<Operation>, i: nat, j: nat)
    requires StepsFrom(Sparing(c), ds, ops, i, j) && Sound(c, ds[i]) && CanTick(c, ds[i])
    ensures Sound(c, ds[j]) && CanTick(c, ds[j])
  {
    hide Sound, CanTick;
    var inv := (d: Device) => Sound(c, d) && CanTick(c, d);
    forall d, op, after | inv(d) && Sparing(c)(d, op, after) ensures inv(after) {
      SparingCanTick(c, d, op, after);
    }
    Always(inv, Sparing(c), ds, ops, i, j, j);
  }
}
