/**
 A run spawned and then halted, and what is left of it.

 A spawn grafts a fragment, and sets the runner over one more run.  A halt
 prunes it, and sets the runner over those left.  So the runner is set anew
 even when nothing else changes: what the two operations leave is compared
 with the graph there was, its runner set over the same runs.

 `SpawnThenHalt` says exactly when they are the same, and that a read then
 answers what it did.
 */
module SpawnAndHalt {
  import opened Integers
  import opened Digraphs
  import opened Graphs
  import opened GraphEdits
  import opened Scaffolds
  import opened Grafts
  import opened ScaffoldEdits
  import opened Devices

  /** The scaffold with the runner set over the runs in order. */
  function WithRunner(g: Graph, rn: Node): Graph {
    Graph(g.root, SetNode(g.nodes, rn))
  }

  lemma RunnerSetTwice(nodes: seq<Node>, rn: Node, over: Node)
    requires UniqueIds(nodes) && rn.id in IdsOf(nodes) && over.id == rn.id
    ensures SetNode(SetNode(nodes, rn), over) == SetNode(nodes, over)
  {
    SetNodeHolds(nodes, rn);
  }

  /** Nothing but the runner changes. */
  lemma OthersStay(g: Graph, rn: Node)
    requires UniqueIds(g.nodes) && rn.id in IdsOf(g.nodes)
    ensures var after := WithRunner(g, rn);
            && UniqueIds(after.nodes) && IdsOf(after.nodes) == IdsOf(g.nodes) && rn in after.nodes
            && (forall n: Node :: n.id != rn.id ==> (n in after.nodes <==> n in g.nodes))
  {
    SetNodeHolds(g.nodes, rn);
    SetNodeShape(g.nodes, rn);
  }

  lemma OthersLead(g: Graph, rn: Node, id: Uuid)
    requires UniqueIds(g.nodes) && rn.id in IdsOf(g.nodes) && id != rn.id
    ensures Next(Children(ById(WithRunner(g, rn).nodes)), id) == Next(Children(ById(g.nodes)), id)
  {
    hide WithRunner;
    var after := WithRunner(g, rn);
    OthersStay(g, rn);
    ByIdKeys(g.nodes);
    ByIdKeys(after.nodes);
    if n :| n in g.nodes && n.id == id {
      NextOf(g.nodes, n);
      NextOf(after.nodes, n);
    }
  }

  lemma HangsAnew(g: Graph, runner: Uuid, mainRoot: Option<Uuid>, runs: set<Run>, rn: Node)
    requires Hangs(g, runner, mainRoot, runs) && rn.id == runner
    requires SetOf(ChildList(rn)) == RootSet(mainRoot) + DecoratorsOf(runs)
    ensures Hangs(WithRunner(g, rn), runner, mainRoot, runs)
    ensures var edges, other := Children(ById(g.nodes)), Children(ById(WithRunner(g, rn).nodes));
            && Reach(other, RootSet(mainRoot)) == Reach(edges, RootSet(mainRoot))
            && Reach(other, DecoratorsOf(runs)) == Reach(edges, DecoratorsOf(runs))
  {
    hide Reach;
    var after, edges, starts := WithRunner(g, rn), Children(ById(g.nodes)), RootSet(mainRoot) + DecoratorsOf(runs);
    OthersStay(g, rn);
    HangingAreNodes(g, runner, mainRoot, runs);
    NextOf(after.nodes, rn);
    forall id | id != runner ensures Next(Children(ById(after.nodes)), id) == Next(edges, id) {
      OthersLead(g, rn, id);
    }
    forall less | less in {RootSet(mainRoot), DecoratorsOf(runs), starts}
      ensures Reach(Children(ById(after.nodes)), less) == Reach(edges, less)
    {
      ReachGrows(edges, less, starts);
      ReachSame(edges, Children(ById(after.nodes)), less);
    }
    assert NextSet(Children(ById(after.nodes)), runner) == starts;
  }

  lemma MainStays(g: Graph, runner: Uuid, mainRoot: Option<Uuid>, runs: set<Run>, rn: Node)
    requires Hangs(g, runner, mainRoot, runs) && rn.id == runner
    requires SetOf(ChildList(rn)) == RootSet(mainRoot) + DecoratorsOf(runs)
    ensures MainGraph(WithRunner(g, rn), runner, mainRoot, runs) == MainGraph(g, runner, mainRoot, runs)
  {
    hide Reach;
    HangsAnew(g, runner, mainRoot, runs, rn);
    KeptBesideRunner(g, rn, NotMain(Children(ById(g.nodes)), runner, mainRoot, runs));
  }

  lemma KeptBesideRunner(g: Graph, rn: Node, out: set<Uuid>)
    requires UniqueIds(g.nodes) && rn.id in IdsOf(g.nodes) && rn.id in out
    ensures Kept(WithRunner(g, rn).nodes, out) == Kept(g.nodes, out)
  {
    KeptAgree(WithRunner(g, rn).nodes, g.nodes, out, out);
  }

  /** Whether any node but the runner holds or reads the fragment, or holds the runner. */
  ghost predicate Alone(g: Graph, runner: Uuid, fragment: set<Uuid>) {
    NoneHolds(g, runner, fragment) && NoneReads(g, runner, fragment)
  }

  /** Grafted over, the runner set before makes no difference. */
  lemma GraftedAlike(g: Graph, fragment: seq<Node>, run: Run, over: Node, rn: Node)
    requires UniqueIds(g.nodes) && rn.id in IdsOf(g.nodes) && over.id == rn.id && IsFragment(g, fragment, run)
    ensures Grafted(WithRunner(g, rn), fragment, over) == Grafted(g, fragment, over)
    ensures IsFragment(WithRunner(g, rn), fragment, run)
    ensures Alone(WithRunner(g, rn), rn.id, IdsOf(fragment)) <==> Alone(g, rn.id, IdsOf(fragment))
  {
    hide Reach;
    RunnerSetTwice(g.nodes, rn, over);
    OthersStay(g, rn);
  }

  /**
   Grafted and then pruned, a run leaves the scaffold as it was but for the
   runner, set over the runs that were, exactly when no node but the runner
   holds or reads a node of its fragment, or holds the runner.
   */
  lemma GraftPruned(g: Graph, runner: Uuid, mainRoot: Option<Uuid>, runs: set<Run>, fragment: seq<Node>, run: Run,
                    over: Node, rn: Node)
    requires Hangs(g, runner, mainRoot, runs) && IsFragment(g, fragment, run) && rn.id == runner
    requires over.id == runner && over.bind == map[] && run.decorator in ChildList(over)
    requires SetOf(ChildList(rn)) == RootSet(mainRoot) + DecoratorsOf(runs)
    ensures (Left(Grafted(g, fragment, over), Pruned(Grafted(g, fragment, over), runner, mainRoot, {run}), rn)
             == WithRunner(g, rn)) <==> Alone(g, runner, IdsOf(fragment))
  {
    hide Reach, NoneHolds, NoneReads, IsFragment, Grafted, Hangs, Left;
    HangsIds(g, runner, mainRoot, runs);
    HangsAnew(g, runner, mainRoot, runs, rn);
    OthersStay(g, rn);
    GraftedAlike(g, fragment, run, over, rn);
    GraftThenPrune(WithRunner(g, rn), runner, mainRoot, runs, fragment, run, over, rn);
  }

  lemma HangsIds(g: Graph, runner: Uuid, mainRoot: Option<Uuid>, runs: set<Run>)
    requires Hangs(g, runner, mainRoot, runs)
    ensures UniqueIds(g.nodes) && runner in IdsOf(g.nodes)
  {
  }

  // Of a device.

  /** A live run of a task no other has, spawned last. */
  lemma {:induction false} RunIsLast(runs: seq<Run>, run: Run)
    requires forall other :: other in runs ==> other.task != run.task
    ensures RunOf(runs + [run], run.task) == |runs|
    decreases |runs|
  {
    if runs != [] {
      assert (runs + [run])[1..] == runs[1..] + [run];
      RunIsLast(runs[1..], run);
    }
  }

  /** What halting the run just grafted prunes. */
  lemma HaltPrunes(c: Config, d: Device, fragment: seq<Node>, run: Run, spawned: Device)
    requires spawned == GraftResult(c, d, fragment, run).device && GraftResult(c, d, fragment, run).ok
    requires forall other :: other in d.runs ==> other.task != run.task
    ensures HaltResult(c, spawned, run.task)
            == PruneResult(c, spawned.(runs := d.runs), [run], All(spawned))
  {
    hide Accepted, Reach, MainGraph, PruneResult;
    RunIsLast(d.runs, run);
    assert spawned.runs == d.runs + [run];
    assert spawned.runs[..|d.runs|] + spawned.runs[|d.runs| + 1..] == d.runs;
  }

  lemma PruneDoes(c: Config, d: Device, run: Run, all: set<Run>)
    requires d.graph.root == Some(c.runner) && c.runner !in Pruned(d.graph, c.runner, d.mainRoot, {run})
    requires PruneResult(c, d, [run], all).ok
    ensures var after := PruneResult(c, d, [run], all).device;
            && after.graph == Left(d.graph, Pruned(d.graph, c.runner, d.mainRoot, {run}),
                                   RunnerNode(c.runner, d.mainRoot, d.runs + d.finished))
            && after.runs == d.runs && after.finished == d.finished && after.mainRoot == d.mainRoot
  {
    hide Reach, MainGraph, Restarted, Applied, Left, Pruned;
    assert SetOf([run]) == {run};
    var pruned := Pruned(d.graph, c.runner, d.mainRoot, {run});
    SetOfHas(ListOf(pruned));
    PruneMakes(d.graph, ListOf(pruned), RunnerNode(c.runner, d.mainRoot, d.runs + d.finished));
  }

  /**
   A run spawned and then halted, both with success, leaves the lists as they
   were; it leaves the graph as it was, but for the runner set over the runs
   that were, exactly when no node but the runner holds or reads a node of the
   run's, or holds the runner; and then a read answers what it did.
   */
  lemma SpawnThenHalt(c: Config, d: Device, fragment: seq<Node>, run: Run)
    requires Stands(c, d) && IsFragment(d.graph, fragment, run)
    requires forall other :: other in d.runs ==> other.task != run.task
    requires GraftResult(c, d, fragment, run).ok
    requires HaltResult(c, GraftResult(c, d, fragment, run).device, run.task).ok
    ensures var after := HaltResult(c, GraftResult(c, d, fragment, run).device, run.task).device;
            var rn := RunnerNode(c.runner, d.mainRoot, d.runs + d.finished);
            && after.runs == d.runs && after.finished == d.finished && after.mainRoot == d.mainRoot
            && (after.graph == WithRunner(d.graph, rn) <==> Alone(d.graph, c.runner, IdsOf(fragment)))
            && (Alone(d.graph, c.runner, IdsOf(fragment)) ==> MainOf(c, after) == MainOf(c, d))
  {
    hide Reach, MainGraph, Left, Pruned, GraftResult, HaltResult, IsFragment, PruneResult, Grafted, WithRunner, Alone;
    var spawned := GraftResult(c, d, fragment, run).device;
    var rn := RunnerNode(c.runner, d.mainRoot, d.runs + d.finished);
    var over := RunnerNode(c.runner, d.mainRoot, d.runs + [run] + d.finished);
    GraftDoes(c, d, fragment, run);
    HaltPrunes(c, d, fragment, run, spawned);
    GraftingStands(c, d, fragment, run);
    RunnerIsNotPruned(spawned.graph, c.runner, d.mainRoot, All(spawned), {run});
    PruneDoes(c, spawned.(runs := d.runs), run, All(spawned));
    RunnerHoldsAll(c.runner, d.mainRoot, d.runs + d.finished);
    OverHolds(c, d, run);
    GraftPruned(d.graph, c.runner, d.mainRoot, All(d), fragment, run, over, rn);
    MainStays(d.graph, c.runner, d.mainRoot, All(d), rn);
  }

  lemma GraftDoes(c: Config, d: Device, fragment: seq<Node>, run: Run)
    requires Stands(c, d) && IsFragment(d.graph, fragment, run) && GraftResult(c, d, fragment, run).ok
    ensures var after := GraftResult(c, d, fragment, run).device;
            && after.graph == Grafted(d.graph, fragment, RunnerNode(c.runner, d.mainRoot, d.runs + [run] + d.finished))
            && after.runs == d.runs + [run] && after.finished == d.finished && after.mainRoot == d.mainRoot
            && run in All(after)
  {
    hide Reach, MainGraph, Restarted, Applied, Grafted;
    GraftMakes(d.graph, fragment, run, RunnerNode(c.runner, d.mainRoot, d.runs + [run] + d.finished));
    OneMoreRun(d.runs, d.finished, run);
  }

  lemma OverHolds(c: Config, d: Device, run: Run)
    ensures run.decorator in ChildList(RunnerNode(c.runner, d.mainRoot, d.runs + [run] + d.finished))
  {
    var runs := d.runs + [run] + d.finished;
    assert runs[|d.runs|] == run;
    assert DecoratorList(runs)[|d.runs|] == run.decorator;
  }
}
