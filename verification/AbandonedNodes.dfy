/**
 A read that answers otherwise at the same revision, from an interpreter's
 start: a graph spawned with a call beside it, an edit that places the call
 under a loose node, and the graph spawned again without the call.

 The nodes are a `Cast`, which plays on any device of its own.  The spawn
 grafts the program and the call; the edit adds a node no node holds, over the
 call.  Spawned again without the call, the program is what the run already
 runs, and the run lets go of the call.  No tree holds it, but the loose node
 is the main behavior's, and now the call is too.

 `RevisionMisses` follows the operations, and `ThereIsOne` gives such nodes.
 */
module AbandonedNodes {
  import opened Integers
  import opened Digraphs
  import opened Graphs
  import opened GraphEdits
  import opened Scaffolds
  import opened Grafts
  import opened Decorators
  import opened Respawns
  import opened ScaffoldEdits
  import opened Devices
  import opened Spawning
  import opened Lifetimes

  /** The cast plays on a device of its own, under the one run. */
  predicate Playable(c: Config, run: Run, cast: Cast) {
    && cast.Stands() && cast.runner == RunnerNode(c.runner, None, [run])
    && cast.decorator == DecoratorNode(run.decorator, run.status, cast.program.id) && run.detached == {cast.call.id}
    && Detachable(cast.call, c.native) && cast.program.bind == map[] && cast.call.bind == map[]
    && RETURN_PORT !in cast.loose.bind
    && cast.program.function_ !in c.interpreter && cast.call.function_ !in c.interpreter
  }

  /** The program, its call beside it. */
  function WithCall(cast: Cast): Graph {
    Graph(Some(cast.program.id), [cast.program, cast.call])
  }

  lemma TwoNodes(n: Node, m: Node)
    requires n.id != m.id
    ensures var nodes := [n, m]; UniqueIds(nodes) && IdsOf(nodes) == {n.id, m.id} && n in nodes && m in nodes
  {
    OneMoreNode([], n);
    OneMoreNode([] + [n], m);
    assert [] + [n] + [m] == [n, m];
  }

  lemma NoSlots(n: Node, m: Node)
    requires ChildList(n) == [] && ChildList(m) == []
    ensures Slots([n, m]) == []
  {
    var nodes := [n, m];
    assert nodes[..1] == [n];
    assert [n][..0] == [];
    assert Slots([n]) == [];
  }

  lemma TwoAreTree(n: Node, m: Node, native: set<Uuid>)
    requires n.id != m.id && ChildList(n) == [] && Detachable(m, native)
    ensures IsTree([n, m], n.id, native) && Parentless([n, m], n.id) == {m.id}
  {
    hide Reach;
    var nodes := [n, m];
    TwoNodes(n, m);
    NoSlots(n, m);
    NextOf(nodes, n);
    ReachIsLeast(Children(ById(nodes)), {n.id}, {n.id});
  }

  lemma MaySpawn(c: Config, run: Run, cast: Cast)
    requires Playable(c, run, cast) && LowersAll(c)
    ensures Spawnable(c, WithCall(cast)) && Spawnable(c, cast.Program())
    ensures WithDetached(run, WithCall(cast)) == run
    ensures WithDetached(run, cast.Program()) == run.(detached := {})
    ensures IdsOf(WithCall(cast).nodes) == {cast.program.id, cast.call.id}
    ensures IdsOf(cast.Program().nodes) == {cast.program.id}
  {
    hide Reach, IsTree;
    TwoNodes(cast.program, cast.call);
    TwoAreTree(cast.program, cast.call, c.native);
    OneNodeIsTree(cast.program);
    AnyNative(cast.program, c.native);
  }

  lemma AnyNative(n: Node, native: set<Uuid>)
    requires IsTree([n], n.id, {}) && Parentless([n], n.id) == {}
    ensures IsTree([n], n.id, native)
  {
    assert forall m :: m in [n] ==> m == n;
  }

  /** The first run's nodes under the runner, and the call. */
  ghost predicate HoldsRun(g: Graph, cast: Cast) {
    && UniqueIds(g.nodes) && g.root == Some(cast.runner.id)
    && IdsOf(g.nodes) == {cast.runner.id, cast.decorator.id, cast.program.id, cast.call.id}
    && cast.runner in g.nodes && cast.decorator in g.nodes && cast.program in g.nodes && cast.call in g.nodes
  }

  lemma RunIsAcyclic(cast: Cast, g: Graph)
    requires cast.Stands() && UniqueIds(g.nodes)
    requires cast.runner in g.nodes && cast.decorator in g.nodes && cast.program in g.nodes
    ensures AcyclicUnder(Children(ById(g.nodes)), cast.runner.id)
  {
    hide Reach, AcyclicUnder;
    ByIdKeys(g.nodes);
    NextOf(g.nodes, cast.runner);
    NextOf(g.nodes, cast.decorator);
    NextOf(g.nodes, cast.program);
    ChainIsAcyclic(Children(ById(g.nodes)), cast.runner.id, cast.decorator.id, cast.program.id);
  }

  /** The program and its call grafted onto the runner alone. */
  lemma FirstGraft(c: Config, run: Run, cast: Cast, g: Graph)
    requires Playable(c, run, cast) && UniqueIds(g.nodes) && g.root == Some(c.runner) && IdsOf(g.nodes) == {c.runner}
    ensures var after := Grafted(g, GraphFragment(WithCall(cast), run), cast.runner);
            && HoldsRun(after, cast)
            && Applied(g, GraphDiff([], GraphFragment(WithCall(cast), run) + [cast.runner], [], [], None))
               == Some(after)
  {
    hide Reach, IsFragment, Applied, IsTree;
    var graph := WithCall(cast);
    var fragment := GraphFragment(graph, run);
    TwoNodes(cast.program, cast.call);
    TwoAreTree(cast.program, cast.call, c.native);
    assert WithDetached(run, graph) == run;
    GraphIsFragment(g, graph, run, c.native);
    FragmentShape(g, fragment, run);
    FragmentHolds(cast, run);
    GraftedHolds(g, fragment, cast.runner);
    GraftMakes(g, fragment, run, cast.runner);
  }

  lemma FragmentShape(g: Graph, fragment: seq<Node>, run: Run)
    requires IsFragment(g, fragment, run)
    ensures UniqueIds(fragment) && IdsOf(fragment) !! IdsOf(g.nodes)
  {
  }

  lemma FragmentHolds(cast: Cast, run: Run)
    requires cast.decorator == DecoratorNode(run.decorator, run.status, cast.program.id)
    ensures var fragment := GraphFragment(WithCall(cast), run);
            && cast.program in fragment && cast.call in fragment && cast.decorator in fragment
            && IdsOf(fragment) == {cast.program.id, cast.call.id, cast.decorator.id}
  {
    assert GraphFragment(WithCall(cast), run) == [cast.program, cast.call, cast.decorator];
    var fragment := [cast.program, cast.call, cast.decorator];
    assert fragment[0] == cast.program && fragment[1] == cast.call && fragment[2] == cast.decorator;
  }

  lemma FirstSpawn(c: Config, run: Run, cast: Cast)
    requires Playable(c, run, cast) && LowersAll(c)
    ensures var r := GraftResult(c, Initial(c), GraphFragment(WithCall(cast), run), run);
            && SpawnsGraph(c, Initial(c), WithCall(cast), run, r)
            && r.ok && HoldsRun(r.device.graph, cast) && r.device.runs == [run] && r.device.finished == []
            && r.device.mainRoot == None && r.device.graph.root == Some(c.runner) && All(r.device) == {run}
  {
    hide Reach, MainGraph, AcyclicUnder, Restarted, Applied, HoldsRun, Spawnable, Parentless, FinishedResult,
         GraphFragment, SelectsNoReturn, Grafted, IdsOf, UniqueIds, Children, ById;
    var d := Initial(c);
    NothingFinished(c, d);
    assert [] + [run] + [] == [run];
    InitialIsOne(c);
    MaySpawn(c, run, cast);
    assert c.runner == cast.runner.id;
    FirstGraft(c, run, cast, d.graph);
    FirstIsRooted(cast, Grafted(d.graph, GraphFragment(WithCall(cast), run), cast.runner));
    RunSelectsNone(c, run, cast, Grafted(d.graph, GraphFragment(WithCall(cast), run), cast.runner));
    OneRun(run);
  }

  lemma OneRun(run: Run)
    ensures SetOf([run]) == {run} && [run] + [] == [run] && DecoratorsOf({run}) == {run.decorator}
  {
  }

  lemma FirstIsRooted(cast: Cast, g: Graph)
    requires cast.Stands() && HoldsRun(g, cast)
    ensures AcyclicUnder(Children(ById(g.nodes)), cast.runner.id) && g.root == Some(cast.runner.id)
  {
    hide AcyclicUnder, Reach;
    RunIsAcyclic(cast, g);
  }

  lemma RunSelectsNone(c: Config, run: Run, cast: Cast, g: Graph)
    requires Playable(c, run, cast) && HoldsRun(g, cast)
    ensures SelectsNoReturn(g)
  {
    var nodes := [cast.runner, cast.decorator, cast.program, cast.call];
    assert nodes[0] in nodes && nodes[1] in nodes && nodes[2] in nodes && nodes[3] in nodes;
    OnlyThese(g, nodes);
  }

  /** An edit that sets a loose node, which holds the call. */
  function LooseEdit(cast: Cast): GraphDiff {
    GraphDiff([], [cast.loose], [], [], None)
  }

  lemma LooseSet(cast: Cast, g: Graph)
    requires cast.Stands() && HoldsRun(g, cast)
    ensures var after := Graph(g.root, SetAll(g.nodes, [cast.loose, cast.runner]));
            && Applied(g, GraphDiff([], [cast.loose, cast.runner], [], [], None)) == Some(after)
            && cast.Plays(after) && AcyclicUnder(Children(ById(after.nodes)), cast.runner.id)
  {
    hide AcyclicUnder, Reach, Applied, SetAll, HoldsRun;
    var set_ := [cast.loose, cast.runner];
    assert SetOf<Uuid>([]) == {};
    RemovesNothing(g, set_, []);
    LoosePlays(cast, g);
    RunIsAcyclic(cast, Graph(g.root, SetAll(g.nodes, set_)));
  }

  lemma LoosePlays(cast: Cast, g: Graph)
    requires cast.Stands() && HoldsRun(g, cast)
    ensures cast.Plays(Graph(g.root, SetAll(g.nodes, [cast.loose, cast.runner])))
  {
    hide SetAll;
    TwoNodes(cast.loose, cast.runner);
    SetAllHolds(g.nodes, [cast.loose, cast.runner]);
  }

  lemma SetsLoose(cast: Cast)
    requires cast.Stands()
    ensures var diff := LooseEdit(cast); ChildrenOf(diff.set_) == {cast.call.id} && ChangedBy(diff) == {cast.loose.id}
  {
    var diff := LooseEdit(cast);
    assert diff.set_[0] == cast.loose;
    assert cast.call.id in ChildList(cast.loose);
  }

  lemma MayEdit(c: Config, run: Run, cast: Cast, g: Graph)
    requires Playable(c, run, cast)
    ensures !Refuses(g, c.runner, {run}, LooseEdit(cast)) && NewMainRoot(None, LooseEdit(cast)) == None
    ensures OntoScaffold(LooseEdit(cast), c.runner, None, [run])
            == GraphDiff([], [cast.loose, cast.runner], [], [], None)
  {
    hide ChangedBy, ChildrenOf;
    SetsLoose(cast);
    OneRun(run);
    assert SetOf(LooseEdit(cast).remove) == {};
  }

  /** An edit that is not refused, and whose graph is accepted, is applied. */
  lemma ApplyDoes(c: Config, d: Device, diff: GraphDiff, edit: GraphDiff, after: Graph)
    requires d.finished == [] && !Refuses(d.graph, c.runner, All(d), diff)
    requires edit == OntoScaffold(diff, c.runner, NewMainRoot(d.mainRoot, diff), d.runs)
    requires Applied(d.graph, edit) == Some(after) && AcyclicUnder(Children(ById(after.nodes)), c.runner)
    requires SelectsNoReturn(after) && c.builds(after)
    ensures var r := ApplyResult(c, d, diff);
            r.ok && r.device.graph == after && r.device.runs == d.runs && r.device.finished == []
            && r.device.mainRoot == NewMainRoot(d.mainRoot, diff)
  {
    hide Reach, MainGraph, AcyclicUnder, Restarted, Applied, FinishedResult, Refuses, OntoScaffold, NewMainRoot, ById,
         SelectsNoReturn;
    NothingFinished(c, d);
    assert d.runs + d.finished == d.runs;
  }

  lemma LooseEdited(c: Config, run: Run, cast: Cast, d: Device)
    requires Playable(c, run, cast) && HoldsRun(d.graph, cast) && LowersAll(c)
    requires d.runs == [run] && d.finished == [] && d.mainRoot == None && All(d) == {run}
    ensures var r := ApplyResult(c, d, LooseEdit(cast));
            && r.ok && cast.Plays(r.device.graph) && r.device.runs == [run] && r.device.finished == []
            && r.device.mainRoot == None
  {
    hide Reach, AcyclicUnder, Applied, HoldsRun, LooseEdit, Refuses, OntoScaffold, NewMainRoot, ApplyResult,
         SelectsNoReturn, SetAll;
    MayEdit(c, run, cast, d.graph);
    LooseSet(cast, d.graph);
    LooseSelectsNone(c, run, cast, d.graph);
    ApplyDoes(c, d, LooseEdit(cast), OntoScaffold(LooseEdit(cast), c.runner, None, [run]),
              Graph(d.graph.root, SetAll(d.graph.nodes, [cast.loose, cast.runner])));
  }

  lemma LooseSelectsNone(c: Config, run: Run, cast: Cast, g: Graph)
    requires Playable(c, run, cast) && HoldsRun(g, cast)
    ensures SelectsNoReturn(Graph(g.root, SetAll(g.nodes, [cast.loose, cast.runner])))
  {
    hide SetAll;
    RunSelectsNone(c, run, cast, g);
    SetAllShape(g.nodes, [cast.loose, cast.runner]);
  }

  lemma RootedAtRun(cast: Cast, g: Graph, run: Run)
    requires cast.Plays(g) && run.decorator == cast.decorator.id
    ensures ProgramRoot(g, run) == Some(cast.program.id) && RunRooted(g, [run], cast.program.id) == 0
  {
    ByIdFinds(g.nodes, cast.decorator);
  }

  lemma AlreadyIsNoChange(c: Config, d: Device, graph: Graph)
    requires UniqueIds(d.graph.nodes) && |d.runs| > 0 && graph.root.Some? && graph.root.value in IdsOf(graph.nodes)
    requires IsTree(graph.nodes, graph.root.value, c.native) && ProgramRoot(d.graph, d.runs[0]) == graph.root
    requires RunsAlready(d.graph, c.runner, d.mainRoot, d.runs[0], graph)
    ensures Respawning(c, d, 0, graph, NO_CHANGE)
  {
    hide Reach, OwnGraph, IsDiff;
    OwnHolds(d.graph, c.runner, d.mainRoot, d.runs[0], graph.root);
    OwnIsRooted(d.graph, c.runner, d.mainRoot, d.runs[0], graph.root);
    SameHasNoDiff(OwnGraph(d.graph, c.runner, d.mainRoot, d.runs[0], graph.root), graph);
  }

  lemma OwnIsRooted(g: Graph, runner: Uuid, mainRoot: Option<Uuid>, run: Run, root: Option<Uuid>)
    ensures OwnGraph(g, runner, mainRoot, run, root).root == root
  {
  }

  /** The graph spawned again without the call: the run has it already. */
  lemma SpawnedAgain(c: Config, run: Run, cast: Cast, d: Device, again: Run)
    requires Playable(c, run, cast) && cast.Plays(d.graph) && LowersAll(c)
    requires d.runs == [run] && d.finished == [] && d.mainRoot == None
    ensures var r := Result(d.(runs := [run.(detached := {})]), true);
            SpawnsGraph(c, d, cast.Program(), again, r) && MainOf(c, r.device) != MainOf(c, d)
  {
    hide Reach, MainGraph, Accepted, FinishedResult, Spawnable, IsDiff, NamesItsOwn, RunsAlready, ById;
    var graph, kept := cast.Program(), run.(detached := {});
    NothingFinished(c, d);
    MaySpawn(c, run, cast);
    OneRun(run);
    OneRun(kept);
    RespawnLetsGo(cast, d.graph, run);
    assert {} + {run} == {run} && {} + {kept} == {kept};
    assert d.runs[0 := kept] == [kept];
    RootedAtRun(cast, d.graph, run);
    AlreadyIsNoChange(c, d, graph);
    assert RespawnResult(c, d, 0, graph, NO_CHANGE) == Result(d.(runs := [kept]), true);
    assert Respawning(c, d, 0, graph, NO_CHANGE);
  }

  /**
   From the start, a graph spawned with a call beside it, an edit that places
   the call under a loose node, and the graph spawned again without the call:
   every operation succeeds, and the last leaves the revision as it is though
   a read answers another graph.
   */
  lemma RevisionMisses(c: Config, run: Run, cast: Cast, again: Run)
    requires Playable(c, run, cast) && LowersAll(c)
    ensures var spawned := GraftResult(c, Initial(c), GraphFragment(WithCall(cast), run), run);
            var edited := ApplyResult(c, spawned.device, LooseEdit(cast));
            var respawned := Result(edited.device.(runs := [run.(detached := {})]), true);
            && MakesNewIds(Initial(c), Spawns(WithCall(cast), run))
            && Steps(c, Initial(c), Spawns(WithCall(cast), run), spawned) && spawned.ok
            && Steps(c, spawned.device, Edits(LooseEdit(cast)), edited) && edited.ok
            && Steps(c, edited.device, Spawns(cast.Program(), again), respawned) && respawned.ok
            && !Revises(c, edited.device, respawned.device)
  {
    hide Reach, MainGraph, GraftResult, ApplyResult, SpawnsGraph, HoldsRun, All, GraphFragment;
    FirstSpawn(c, run, cast);
    FirstIsNew(c, run, cast);
    var spawned := GraftResult(c, Initial(c), GraphFragment(WithCall(cast), run), run).device;
    LooseEdited(c, run, cast, spawned);
    SpawnedAgain(c, run, cast, ApplyResult(c, spawned, LooseEdit(cast)).device, again);
  }

  lemma FirstIsNew(c: Config, run: Run, cast: Cast)
    requires Playable(c, run, cast)
    ensures MakesNewIds(Initial(c), Spawns(WithCall(cast), run))
  {
    InitialIsOne(c);
    TwoNodes(cast.program, cast.call);
  }

  /** There are such a device and such nodes. */
  lemma ThereIsOne()
    ensures exists c: Config, run: Run, cast: Cast :: Playable(c, run, cast) && LowersAll(c)
  {
    var c := Config(Uuid(1), {}, {}, g => true, (f, g) => true);
    var run := Run(Uuid(9), "run", Uuid(2), {Uuid(5)});
    var cast := Cast(RunnerNode(Uuid(1), None, [run]), DecoratorNode(Uuid(2), "run", Uuid(3)),
                     Node(Uuid(3), Uuid(10), map[], None), Node(Uuid(4), Uuid(12), map[], Some([Uuid(5)])),
                     Node(Uuid(5), Uuid(11), map[], None));
    assert ChildList(cast.runner) == [Uuid(2)] && ChildList(cast.decorator) == [Uuid(3)];
    assert Playable(c, run, cast);
  }
}
