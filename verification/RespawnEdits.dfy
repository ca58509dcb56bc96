/** What a run spawned again makes of the scaffold. */
module RespawnEdits {
  import opened Integers
  import opened Digraphs
  import opened Graphs
  import opened GraphEdits
  import opened Scaffolds
  import opened Grafts
  import opened Decorators
  import opened Respawns
  import opened ScaffoldEdits

  /** A diff from the run's own nodes to `graph`. */
  ghost predicate IsRespawn(g: Graph, runner: Uuid, mainRoot: Option<Uuid>, run: Run, graph: Graph, diff: GraphDiff) {
    && graph.root.Some? && graph.root.value in IdsOf(graph.nodes) && UniqueIds(graph.nodes)
    && NamesItsOwn(g, runner, mainRoot, run, graph.nodes)
    && IsDiff(OwnGraph(g, runner, mainRoot, run, graph.root), graph, diff)
  }

  /** The diff names the run's nodes and new ones, and removes the run's. */
  lemma RespawnNames(g: Graph, runner: Uuid, mainRoot: Option<Uuid>, run: Run, graph: Graph, diff: GraphDiff)
    requires UniqueIds(g.nodes) && IsRespawn(g, runner, mainRoot, run, graph, diff)
    ensures ChangedBy(diff) <= IdsOf(graph.nodes) && SetOf(diff.remove) <= RunHolds(g, run)
    ensures IdsOf(graph.nodes) * IdsOf(g.nodes) <= RunHolds(g, run)
    ensures diff.root == None && forall s :: s in diff.set_ ==> s in graph.nodes
  {
    var own := OwnGraph(g, runner, mainRoot, run, graph.root);
    OwnHolds(g, runner, mainRoot, run, graph.root);
    DiffNames(own, graph, diff);
    assert Unrooted(own, graph) == None;
    forall id | id in IdsOf(graph.nodes) * IdsOf(g.nodes) ensures id in RunHolds(g, run) {
      var n :| n in graph.nodes && n.id == id;
    }
  }

  /** The runner holds what it held. */
  lemma RunnerStays(g: Graph, diff: GraphDiff, runner: Uuid, after: Graph)
    requires UniqueIds(g.nodes) && runner in IdsOf(g.nodes) && Applied(g, diff) == Some(after)
    requires runner !in SetOf(diff.remove) && runner !in ChangedBy(diff)
    ensures UniqueIds(after.nodes) && runner in Children(ById(after.nodes))
    ensures Next(Children(ById(after.nodes)), runner) == Next(Children(ById(g.nodes)), runner)
  {
    EditShape(g, diff);
    ByIdKeys(after.nodes);
    assert runner in IdsOf(after.nodes);
    var n :| n in after.nodes && n.id == runner;
    assert !AsSet(n, diff.set_) by {
      assert IdsOf(diff.set_) <= ChangedBy(diff);
    }
    var m :| m in g.nodes && m.id == n.id && m.function_ == n.function_ && m.children == n.children;
    NextOf(g.nodes, m);
    NextOf(after.nodes, n);
  }

  lemma RunnerIsNotHeld(g: Graph, runner: Uuid, mainRoot: Option<Uuid>, runs: set<Run>, run: Run)
    requires Hangs(g, runner, mainRoot, runs) && run in runs
    ensures runner !in RunHolds(g, run) && runner !in Reach(Children(ById(g.nodes)), {run.decorator})
  {
    HangingReachesNodes(g, runner, mainRoot, runs);
    HeldByOne(Children(ById(g.nodes)), run);
    assert {run.decorator} <= DecoratorsOf(runs);
    ReachGrows(Children(ById(g.nodes)), {run.decorator}, DecoratorsOf(runs));
    assert run.detached <= DetachedOf(runs);
  }

  /** What an accepted respawn hangs. */
  lemma RespawnHangs(g: Graph, runner: Uuid, mainRoot: Option<Uuid>, others: set<Run>, run: Run, graph: Graph,
                     diff: GraphDiff, detached: set<Uuid>, after: Graph)
    requires Hangs(g, runner, mainRoot, others + {run}) && IsRespawn(g, runner, mainRoot, run, graph, diff)
    requires detached <= IdsOf(graph.nodes)
    requires Applied(g, diff) == Some(after) && AcyclicUnder(Children(ById(after.nodes)), runner)
    ensures Hangs(after, runner, mainRoot, others + {run.(detached := detached)})
  {
    RunnerIsNotHeld(g, runner, mainRoot, others + {run}, run);
    RespawnNames(g, runner, mainRoot, run, graph, diff);
    SetOfHas(diff.remove);
    RunnerStays(g, diff, runner, after);
    RunsGrow(others, run);
    RunsGrow(others, run.(detached := detached));
    var edges := Children(ById(after.nodes));
    ByIdKeys(after.nodes);
    UnderAreNodes(edges, runner, NextSet(edges, runner));
    assert NextSet(edges, runner) == NextSet(Children(ById(g.nodes)), runner);
  }

  /** A run holds no other run's decorator. */
  lemma RunHoldsNoDecorator(g: Graph, runner: Uuid, mainRoot: Option<Uuid>, others: set<Run>, run: Run)
    requires UniqueIds(g.nodes) && Scaffolded(g, runner, mainRoot, others + {run})
    requires run.decorator !in DecoratorsOf(others) && runner !in Reach(Children(ById(g.nodes)), {run.decorator})
    ensures RunHolds(g, run) !! DecoratorsOf(others + {run})
  {
    RunsGrow(others, run);
    FewerRuns(g, runner, mainRoot, others + {run}, others);
    DecoratorsAreApart(g, runner, mainRoot, others, {run.decorator});
    HeldByOne(Children(ById(g.nodes)), run);
  }

  lemma RespawnSpares(g: Graph, runner: Uuid, mainRoot: Option<Uuid>, others: set<Run>, run: Run, graph: Graph,
                      diff: GraphDiff, detached: set<Uuid>, after: Graph)
    requires UniqueIds(g.nodes) && Scaffolded(g, runner, mainRoot, others + {run})
    requires run.decorator !in DecoratorsOf(others) && runner !in Reach(Children(ById(g.nodes)), {run.decorator})
    requires DecoratorsOf(others + {run}) <= IdsOf(g.nodes)
    requires IsRespawn(g, runner, mainRoot, run, graph, diff) && ClosedUnder(graph.nodes, IdsOf(graph.nodes))
    requires detached <= IdsOf(graph.nodes) && Applied(g, diff) == Some(after)
    ensures Scaffolded(after, runner, mainRoot, others + {run.(detached := detached)})
    ensures Restarted(g, diff) !! DecoratorsOf(others + {run})
  {
    var decorators := DecoratorsOf(others + {run});
    RunHoldsNoDecorator(g, runner, mainRoot, others, run);
    RespawnNames(g, runner, mainRoot, run, graph, diff);
    assert IdsOf(graph.nodes) !! decorators;
    ClosedChildren(diff.set_, graph.nodes, runner);
    EditKeepsDecorators(g, diff, runner, mainRoot, others + {run}, mainRoot);
    RunsGrow(others, run);
    RunsGrow(others, run.(detached := detached));
  }

  lemma ClosedChildren(some: seq<Node>, nodes: seq<Node>, runner: Uuid)
    requires ClosedUnder(nodes, IdsOf(nodes)) && forall s :: s in some ==> s in nodes
    ensures ChildrenBeside(some, runner) <= IdsOf(nodes)
  {
    forall s, child | s in some && child in ChildList(s) ensures child in IdsOf(nodes) {
      assert child in SetOf(ChildList(s));
    }
  }

  /** The run takes the graph as its program: every node of the graph stands,
      as the graph has it. */
  lemma RespawnTakes(g: Graph, runner: Uuid, mainRoot: Option<Uuid>, run: Run, graph: Graph, diff: GraphDiff, n: Node)
    requires UniqueIds(g.nodes) && IsRespawn(g, runner, mainRoot, run, graph, diff) && n in graph.nodes
    requires Applied(g, diff).Some?
    ensures n in Applied(g, diff).value.nodes
  {
    var own := OwnGraph(g, runner, mainRoot, run, graph.root);
    var removed := RemovedIds(own, graph);
    OwnHolds(g, runner, mainRoot, run, graph.root);
    SetWholeHolds(own, graph, graph.nodes);
    var kept := Without(g.nodes, removed);
    WithoutHolds(g.nodes, removed);
    SetAllHolds(kept, diff.set_);
    ReboundAllHolds(SetAll(kept, diff.set_), diff);
    if Stays(own, graph, n) {
      var was := ById(own.nodes)[n.id];
      forall m | m in diff.set_ ensures m.id != n.id {
        ByIdFinds(graph.nodes, n);
        ByIdFinds(graph.nodes, m);
      }
      assert was.(bind := KeptBind(was.bind, removed)) in kept;
      StayingIsRebound(own, graph, diff, n);
    } else {
      SetWholeIsKept(own, graph, diff, n);
    }
  }
}
