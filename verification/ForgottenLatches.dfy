/**
 A latch lost, from an interpreter's start: a load may name a run's decorator,
 and the next may then list it, which starts it afresh.

 The graphs on the way are towers: a runner over one decorator over one call.
 A call is spawned, and errs when it is ticked: its run ends in failure, and
 the tick fails before it sweeps.  The decorator is loaded as the main
 behavior's root, of a graph without nodes, and is then the main behavior's
 too; so the next load may list it.

 `LatchIsForgotten` follows the operations to the tick that invokes the call
 again, and `ThereIsOne` gives such a run.
 */
module ForgottenLatches {
  import opened Integers
  import opened Digraphs
  import opened Graphs
  import opened GraphEdits
  import opened Scaffolds
  import opened Grafts
  import opened Decorators
  import opened Respawns
  import opened ScaffoldEdits
  import opened Devices
  import opened Spawning
  import opened Ticking
  import opened Lifetimes
  import opened Latching

  /** The runner over one run's decorator over its program, the run ended but
      not yet swept, as a tick that fails leaves it. */
  ghost predicate JustEnded(c: Config, d: Device, run: Run, decorator: Node, program: Node) {
    var rn := RunnerNode(c.runner, None, [run]);
    && c.runner != decorator.id && c.runner != program.id && decorator.id != program.id
    && run.decorator == decorator.id && run.detached == {}
    && decorator.children == Some([program.id]) && ChildList(program) == []
    && UniqueIds(d.graph.nodes) && d.graph.root == Some(c.runner)
    && IdsOf(d.graph.nodes) == {c.runner, decorator.id, program.id}
    && rn in d.graph.nodes && decorator in d.graph.nodes && program in d.graph.nodes
    && d.mainRoot == None && d.runs == [run] && d.finished == [] && SelectsNoReturn(d.graph)
    && d.published == map[decorator.id := Failure] && d.latches == Some(map[decorator.id := Some(Failure)])
  }

  /** A runner over decorators over a program. */
  ghost predicate Tower(c: Config, g: Graph, decorator: Node, program: Node) {
    && c.runner != decorator.id && c.runner != program.id && decorator.id != program.id
    && decorator.children == Some([program.id]) && ChildList(program) == []
    && UniqueIds(g.nodes) && IdsOf(g.nodes) == {c.runner, decorator.id, program.id}
    && decorator in g.nodes && program in g.nodes
    && NextSet(Children(ById(g.nodes)), c.runner) <= {decorator.id}
  }

  lemma TowerEdges(c: Config, g: Graph, decorator: Node, program: Node)
    requires Tower(c, g, decorator, program)
    ensures var edges := Children(ById(g.nodes));
            && Next(edges, decorator.id) == [program.id] && Next(edges, program.id) == []
            && c.runner in edges && decorator.id in edges && program.id in edges
            && NextSet(edges, c.runner) <= {decorator.id}
  {
    NextOf(g.nodes, decorator);
    NextOf(g.nodes, program);
    ByIdKeys(g.nodes);
  }

  lemma TowerReach(c: Config, g: Graph, decorator: Node, program: Node)
    requires Tower(c, g, decorator, program)
    ensures Reach(Children(ById(g.nodes)), {decorator.id}) == {decorator.id, program.id}
    ensures AcyclicUnder(Children(ById(g.nodes)), c.runner)
  {
    TowerEdges(c, g, decorator, program);
    EdgesReach(Children(ById(g.nodes)), decorator.id, program.id);
    ChainIsAcyclic(Children(ById(g.nodes)), c.runner, decorator.id, program.id);
  }

  lemma EdgesReach(edges: Edges<Uuid>, decorator: Uuid, program: Uuid)
    requires Next(edges, decorator) == [program] && Next(edges, program) == []
    ensures Reach(edges, {decorator}) == {decorator, program}
  {
    ReachIsLeast(edges, {decorator}, {decorator, program});
    assert program in Next(edges, decorator);
  }

  /** Other nodes of the same ids, the decorator and program among them. */
  lemma TowerAlike(c: Config, g: Graph, other: Graph, decorator: Node, program: Node)
    requires Tower(c, g, decorator, program) && UniqueIds(other.nodes) && IdsOf(other.nodes) == IdsOf(g.nodes)
    requires decorator in other.nodes && program in other.nodes
    requires NextSet(Children(ById(other.nodes)), c.runner) <= {decorator.id}
    ensures Tower(c, other, decorator, program)
  {
  }

  /** Nothing, or the decorator alone. */
  predicate NothingOr(nodes: seq<Node>, decorator: Node) {
    nodes == [] || nodes == [decorator]
  }

  lemma SetsOf(c: Config, g: Graph, decorator: Node, program: Node, nodes: seq<Node>, rn: Node)
    requires Tower(c, g, decorator, program) && NothingOr(nodes, decorator) && rn.id == c.runner
    ensures UniqueIds(nodes + [rn]) && IdsOf(nodes + [rn]) <= IdsOf(g.nodes)
    ensures program.id !in IdsOf(nodes + [rn]) && (decorator.id in IdsOf(nodes + [rn]) ==> decorator in nodes + [rn])
  {
    if nodes == [] {
      assert nodes + [rn] == [rn];
    } else {
      assert nodes + [rn] == [decorator, rn];
    }
  }

  /** What a load of nothing but the root, or of the decorator alone, makes. */
  lemma LoadSets(c: Config, g: Graph, decorator: Node, program: Node, nodes: seq<Node>, rn: Node)
    requires Tower(c, g, decorator, program) && NothingOr(nodes, decorator)
    requires rn.id == c.runner && SetOf(ChildList(rn)) <= {decorator.id}
    ensures Tower(c, Graph(g.root, SetAll(g.nodes, nodes + [rn])), decorator, program)
  {
    var after := Graph(g.root, SetAll(g.nodes, nodes + [rn]));
    SetsOf(c, g, decorator, program, nodes, rn);
    SetsHold(g.nodes, nodes + [rn], decorator, program, rn);
    TowerAlike(c, g, after, decorator, program);
  }

  lemma SetsHold(nodes: seq<Node>, set_: seq<Node>, decorator: Node, program: Node, rn: Node)
    requires UniqueIds(nodes) && UniqueIds(set_) && IdsOf(set_) <= IdsOf(nodes) && rn in set_
    requires decorator in nodes && program in nodes && program.id !in IdsOf(set_)
    requires decorator.id in IdsOf(set_) ==> decorator in set_
    ensures var after := SetAll(nodes, set_);
            && UniqueIds(after) && IdsOf(after) == IdsOf(nodes) && decorator in after && program in after
            && NextSet(Children(ById(after)), rn.id) == SetOf(ChildList(rn))
  {
    SetAllHolds(nodes, set_);
    NextOf(SetAll(nodes, set_), rn);
  }

  /** A load of nothing, or of a node there was, selects no more returns. */
  lemma LoadSelectsNone(g: Graph, decorator: Node, nodes: seq<Node>, rn: Node)
    requires SelectsNoReturn(g) && UniqueIds(g.nodes) && decorator in g.nodes && NothingOr(nodes, decorator)
    requires rn.bind == map[]
    ensures SelectsNoReturn(Graph(g.root, SetAll(g.nodes, nodes + [rn])))
  {
    hide SetAll;
    SetAllShape(g.nodes, nodes + [rn]);
  }

  lemma LoadSame(c: Config, g: Graph, decorator: Node, program: Node, nodes: seq<Node>)
    requires Tower(c, g, decorator, program) && NothingOr(nodes, decorator)
    ensures Tower(c, Graph(g.root, SetAll(g.nodes, nodes)), decorator, program)
  {
    if nodes == [] {
      assert SetAll(g.nodes, nodes) == g.nodes;
    } else {
      assert SetAll(g.nodes, [decorator]) == SetNode(SetAll(g.nodes, []), decorator);
      SetAgain(g.nodes, decorator);
    }
  }

  lemma SetAgain(nodes: seq<Node>, n: Node)
    requires UniqueIds(nodes) && n in nodes
    ensures SetNode(nodes, n) == nodes
  {
    forall i | 0 <= i < |nodes| && nodes[i].id == n.id ensures nodes[i] == n {
      OneOfAnId(nodes, n, nodes[i]);
    }
  }

  predicate RunsOne(d: Device, run: Run, decorator: Node) {
    run.decorator == decorator.id && run.detached == {} && d.runs == [run] && d.finished == []
  }

  lemma RunsOneHold(d: Device, run: Run, decorator: Node)
    requires RunsOne(d, run, decorator)
    ensures All(d) == {run} && d.runs + d.finished == [run] && DecoratorsOf({run}) == {decorator.id}
  {
  }

  /** Nothing leaves: the run holds what the runner does not. */
  lemma NothingLeaves(c: Config, d: Device, run: Run, decorator: Node, program: Node, nodes: seq<Node>,
                      root: Option<Uuid>)
    requires Tower(c, d.graph, decorator, program) && NothingOr(nodes, decorator) && RunsOne(d, run, decorator)
    ensures LoadRemoves(d.graph, c.runner, All(d), Graph(root, nodes)) == {}
  {
    var same := Graph(d.graph.root, SetAll(d.graph.nodes, nodes));
    RunsOneHold(d, run, decorator);
    LoadSame(c, d.graph, decorator, program, nodes);
    TowerReach(c, same, decorator, program);
    HeldByOne(Children(ById(same.nodes)), run);
  }

  /** The decorator may be loaded once it is the main root. */
  lemma MayLoadIt(c: Config, d: Device, run: Run, decorator: Node, program: Node, nodes: seq<Node>,
                  root: Option<Uuid>)
    requires Tower(c, d.graph, decorator, program) && NothingOr(nodes, decorator) && RunsOne(d, run, decorator)
    requires nodes == [] || d.mainRoot == Some(decorator.id)
    ensures Loadable(c, d, Graph(root, nodes))
  {
    RunsOneHold(d, run, decorator);
    TowerReach(c, d.graph, decorator, program);
    HeldByOne(Children(ById(d.graph.nodes)), run);
    assert nodes == [] ==> IdsOf(nodes) == {};
    assert nodes == [decorator] ==> IdsOf(nodes) == {decorator.id};
  }

  /** What it sets is accepted, and leaves the tower. */
  lemma LoadApplies(c: Config, d: Device, run: Run, decorator: Node, program: Node, nodes: seq<Node>,
                    root: Option<Uuid>)
    requires Tower(c, d.graph, decorator, program) && NothingOr(nodes, decorator) && RunsOne(d, run, decorator)
    requires d.graph.root == Some(c.runner) && SelectsNoReturn(d.graph) && LowersAll(c)
    requires root.Some? ==> root.value == decorator.id
    ensures var diff := LoadDiff(c, d, Graph(root, nodes), ListOf({}));
            && Accepted(c.runner, c.Lowers(d.functions), d.graph, diff, false) && Applied(d.graph, diff).Some?
            && Tower(c, Applied(d.graph, diff).value, decorator, program)
            && Applied(d.graph, diff).value.root == d.graph.root && SelectsNoReturn(Applied(d.graph, diff).value)
  {
    hide SelectsNoReturn, Reach, AcyclicUnder, Applied, Tower, NothingOr, SetAll, ListOf;
    var rn := RunnerNode(c.runner, root, d.runs + d.finished);
    RunsOneHold(d, run, decorator);
    RunnerHoldsAll(c.runner, root, d.runs + d.finished);
    assert SetOf([run]) == {run};
    LoadSets(c, d.graph, decorator, program, nodes, rn);
    TowerReach(c, Graph(d.graph.root, SetAll(d.graph.nodes, nodes + [rn])), decorator, program);
    RemovesNothing(d.graph, nodes + [rn], ListOf({}));
    TowerIsUnique(c, d.graph, decorator, program);
    LoadSelectsNone(d.graph, decorator, nodes, rn);
  }

  /** A load onto the tower with the decorator as its root is accepted. */
  lemma LoadIsAccepted(c: Config, d: Device, run: Run, decorator: Node, program: Node, nodes: seq<Node>,
                       root: Option<Uuid>)
    requires Tower(c, d.graph, decorator, program) && NothingOr(nodes, decorator) && RunsOne(d, run, decorator)
    requires nodes == [] || d.mainRoot == Some(decorator.id)
    requires d.graph.root == Some(c.runner) && SelectsNoReturn(d.graph) && LowersAll(c)
    requires root.Some? ==> root.value == decorator.id
    ensures var diff := LoadDiff(c, d, Graph(root, nodes), ListOf({}));
            && Applied(d.graph, diff).Some?
            && LoadNow(c, d, Graph(root, nodes))
               == Result(Edited(d, diff).(mainRoot := root, revision := d.revision + 1), true)
            && Tower(c, Applied(d.graph, diff).value, decorator, program)
            && Applied(d.graph, diff).value.root == d.graph.root && SelectsNoReturn(Applied(d.graph, diff).value)
  {
    hide SelectsNoReturn, Reach, Restarted, Applied, LoadRemoves, Loadable, Tower, NothingOr, Accepted, LoadDiff,
         LoadNow, ListOf, All, LowersAll;
    NothingLeaves(c, d, run, decorator, program, nodes, root);
    MayLoadIt(c, d, run, decorator, program, nodes, root);
    LoadApplies(c, d, run, decorator, program, nodes, root);
    LoadNowIs(c, d, Graph(root, nodes));
  }

  lemma TowerIsUnique(c: Config, g: Graph, decorator: Node, program: Node)
    requires Tower(c, g, decorator, program)
    ensures UniqueIds(g.nodes) && decorator in g.nodes
  {
  }

  lemma LoadNowIs(c: Config, d: Device, graph: Graph)
    requires Loadable(c, d, graph) && LoadRemoves(d.graph, c.runner, All(d), graph) == {}
    requires Accepted(c.runner, c.Lowers(d.functions), d.graph, LoadDiff(c, d, graph, ListOf({})), false)
    ensures LoadNow(c, d, graph)
            == Result(Edited(d, LoadDiff(c, d, graph, ListOf({}))).(mainRoot := graph.root, revision := d.revision + 1),
                      true)
  {
    hide Reach, MainGraph, AcyclicUnder, Applied, Restarted, Loadable, LoadRemoves, SelectsNoReturn;
  }

  lemma StartsAsTower(c: Config, d: Device, run: Run, decorator: Node, program: Node)
    requires JustEnded(c, d, run, decorator, program)
    ensures Tower(c, d.graph, decorator, program)
  {
    var rn := RunnerNode(c.runner, None, [run]);
    NextOf(d.graph.nodes, rn);
    RunnerHoldsAll(c.runner, None, [run]);
    RunsOneHold(d, run, decorator);
    assert SetOf([run]) == {run};
    assert NextSet(Children(ById(d.graph.nodes)), c.runner) == SetOf(ChildList(rn));
  }

  /** Loaded as a root, then listed by the next load, an ended run's decorator
      is to start afresh. */
  lemma LoadedTwice(c: Config, d: Device, run: Run, decorator: Node, program: Node)
    requires JustEnded(c, d, run, decorator, program) && LowersAll(c)
    ensures HasEnded(d, decorator.id)
    ensures var one := LoadNow(c, d, Graph(Some(decorator.id), []));
            var two := LoadNow(c, one.device, Graph(Some(decorator.id), [decorator]));
            && one.ok && one.device.finished == []
            && two.ok && two.device.finished == [] && two.device.dirty
            && HasEnded(two.device, decorator.id) && decorator.id in two.device.afresh
  {
    StartsAsTower(c, d, run, decorator, program);
    RunsOneHold(d, run, decorator);
    LoadIsAccepted(c, d, run, decorator, program, [], Some(decorator.id));
    var one := LoadNow(c, d, Graph(Some(decorator.id), [])).device;
    LoadIsAccepted(c, one, run, decorator, program, [decorator], Some(decorator.id));
    var two := LoadNow(c, one, Graph(Some(decorator.id), [decorator])).device;
    RunsOneHold(two, run, decorator);
    IsSet(c, one, decorator);
  }

  lemma IsSet(c: Config, d: Device, decorator: Node)
    ensures decorator.id in ChangedBy(LoadDiff(c, d, Graph(Some(decorator.id), [decorator]), ListOf({})))
  {
    var diff := LoadDiff(c, d, Graph(Some(decorator.id), [decorator]), ListOf({}));
    assert diff.set_[0] == decorator;
    assert decorator in diff.set_;
  }

  // From the start.

  /** A tick that reaches the run, whose program errs, and fails with it. */
  function FirstTick(run: Run): Meets {
    Meets(true, true, 0, true, true, map[run.decorator := Erred], false, true)
  }

  ghost predicate Apart(c: Config, run: Run, id: Uuid) {
    c.runner != id && c.runner != run.decorator && id != run.decorator && run.detached == {}
  }

  /** The first run's call and decorator, under the runner. */
  ghost predicate HoldsFirst(c: Config, g: Graph, run: Run, id: Uuid, call: Value) {
    var rn, program := RunnerNode(c.runner, None, [run]), CallNode(id, call);
    var decorator := DecoratorNode(run.decorator, run.status, id);
    && UniqueIds(g.nodes) && g.root == Some(c.runner) && IdsOf(g.nodes) == {c.runner, decorator.id, program.id}
    && rn in g.nodes && decorator in g.nodes && program in g.nodes
  }

  lemma FirstGraph(c: Config, g: Graph, run: Run, id: Uuid, call: Value)
    requires Apart(c, run, id) && UniqueIds(g.nodes) && g.root == Some(c.runner) && IdsOf(g.nodes) == {c.runner}
    ensures var after := Grafted(g, CallFragment(run, id, call), RunnerNode(c.runner, None, [run]));
            && HoldsFirst(c, after, run, id, call)
            && Applied(g, GraphDiff([], CallFragment(run, id, call) + [RunnerNode(c.runner, None, [run])], [], [],
                                    None))
               == Some(after)
  {
    hide Reach, IsFragment, Applied;
    var rn, fragment := RunnerNode(c.runner, None, [run]), CallFragment(run, id, call);
    CallIds(run, id, call);
    CallIsFragment(g, run, id, call);
    FragmentIsUnique(g, fragment, run);
    GraftedHolds(g, fragment, rn);
    GraftMakes(g, fragment, run, rn);
    assert fragment[0] in fragment && fragment[1] in fragment;
  }

  lemma FragmentIsUnique(g: Graph, fragment: seq<Node>, run: Run)
    requires IsFragment(g, fragment, run)
    ensures UniqueIds(fragment) && IdsOf(fragment) !! IdsOf(g.nodes)
  {
  }

  lemma FirstSelectsNone(c: Config, g: Graph, run: Run, id: Uuid, call: Value)
    requires HoldsFirst(c, g, run, id, call)
    ensures SelectsNoReturn(g)
  {
    var nodes := [RunnerNode(c.runner, None, [run])] + CallFragment(run, id, call);
    CallIds(run, id, call);
    assert IdsOf(nodes) == {c.runner} + IdsOf(CallFragment(run, id, call));
    OnlyThese(g, nodes);
  }

  lemma FirstIsAcyclic(c: Config, g: Graph, run: Run, id: Uuid, call: Value)
    requires Apart(c, run, id) && HoldsFirst(c, g, run, id, call)
    ensures AcyclicUnder(Children(ById(g.nodes)), c.runner)
  {
    hide Reach, AcyclicUnder;
    var rn := RunnerNode(c.runner, None, [run]);
    RunnerHoldsAll(c.runner, None, [run]);
    NextOf(g.nodes, rn);
    RunIsOne(run);
    TowerReach(c, g, DecoratorNode(run.decorator, run.status, id), CallNode(id, call));
  }

  lemma RunIsOne(run: Run)
    ensures DecoratorsOf(SetOf([run])) == {run.decorator} && RootSet(None) == {}
  {
    assert SetOf([run]) == {run};
  }

  lemma FirstIsNew(c: Config, run: Run, id: Uuid, call: Value)
    requires Apart(c, run, id)
    ensures MakesNewIds(Initial(c), SpawnsCall(run, id, call))
  {
    hide Reach, MainGraph;
    InitialIsOne(c);
  }

  /** The first call grafted onto the runner alone. */
  function FirstSpawned(c: Config, run: Run, id: Uuid, call: Value): Graph {
    Grafted(Initial(c).graph, CallFragment(run, id, call), RunnerNode(c.runner, None, [run]))
  }

  lemma FirstSpawn(c: Config, run: Run, id: Uuid, call: Value)
    requires Apart(c, run, id) && c.builds(FirstSpawned(c, run, id, call))
    requires c.lowers(0, FirstSpawned(c, run, id, call))
    ensures var r := SpawnResult(c, Initial(c), run, id, call);
            && r.ok && HoldsFirst(c, r.device.graph, run, id, call) && r.device.dirty
            && r.device == Initial(c).(graph := r.device.graph, runs := [run], afresh := r.device.afresh)
  {
    hide Reach, MainGraph, AcyclicUnder, Restarted, Applied, HoldsFirst, CallFragment, FinishedResult, Apart,
         SelectsNoReturn;
    var d, rn := Initial(c), RunnerNode(c.runner, None, [run]);
    NothingFinished(c, d);
    assert [] + [run] + [] == [run];
    InitialIsOne(c);
    FirstGraph(c, d.graph, run, id, call);
    FirstIsAcyclic(c, Grafted(d.graph, CallFragment(run, id, call), rn), run, id, call);
    FirstSelectsNone(c, Grafted(d.graph, CallFragment(run, id, call), rn), run, id, call);
  }

  lemma OneTicked(m: Meets, decorator: Uuid)
    requires OutcomeOf(m, decorator) == Erred
    ensures LatchesAfter(map[decorator := None], m) == map[decorator := Some(Failure)]
    ensures PublishedAfter(map[], map[decorator := None], m) == map[decorator := Failure]
  {
    assert Invoked(map[decorator := None], m) == {decorator};
    assert Mirrored(OutcomeOf(m, decorator)) == Failure;
    assert LatchesAfter(map[decorator := None], m).Keys == {decorator};
    assert PublishedAfter(map[], map[decorator := None], m).Keys == {decorator};
  }

  lemma FirstTicked(c: Config, d: Device, run: Run, id: Uuid, call: Value)
    requires Apart(c, run, id) && HoldsFirst(c, d.graph, run, id, call) && d.dirty
    requires d == Initial(c).(graph := d.graph, runs := [run], afresh := d.afresh)
    ensures JustEnded(c, TickResult(c, d, FirstTick(run)).device, run,
                      DecoratorNode(run.decorator, run.status, id), CallNode(id, call))
  {
    hide Reach, MainGraph, Accepted, FinishedResult, LatchesAfter, PublishedAfter, SelectsNoReturn;
    FirstSelectsNone(c, d.graph, run, id, call);
    RunIsOne(run);
    assert All(d) == {run} && DecoratorsOf({run}) == {run.decorator};
    var w := Written(d);
    NothingFinished(c, w);
    assert Carried(w) == map[run.decorator := None];
    OneTicked(FirstTick(run), run.decorator);
  }

  /**
   From the start, a call spawned, which errs when it is ticked, its decorator
   loaded as the main root, then listed by the next load: the run has ended in
   failure, and the tick that reaches its decorator invokes its program again.
   */
  lemma LatchIsForgotten(c: Config, run: Run, id: Uuid, call: Value, m: Meets)
    requires Apart(c, run, id) && LowersAll(c)
    requires m.haltsWritten && m.revisionWritten && m.lowers && m.revisionRewritten
    ensures var decorator := DecoratorNode(run.decorator, run.status, id);
            var spawned := SpawnResult(c, Initial(c), run, id, call);
            var ended := TickResult(c, spawned.device, FirstTick(run)).device;
            var rooted := LoadResult(c, ended, Graph(Some(decorator.id), []));
            var listed := LoadResult(c, rooted.device, Graph(Some(decorator.id), [decorator]));
            && MakesNewIds(Initial(c), SpawnsCall(run, id, call)) && spawned.ok
            && HasEnded(ended, decorator.id) && rooted.ok && listed.ok && HasEnded(listed.device, decorator.id)
            && (decorator.id in TickInvokes(c, listed.device, m) <==> OutcomeOf(m, decorator.id) != Unreached)
  {
    hide Reach, SpawnResult, TickResult, LoadNow, TickInvokes, JustEnded, HoldsFirst, Stands, FinishedResult,
         MakesNewIds;
    var decorator := DecoratorNode(run.decorator, run.status, id);
    FirstIsNew(c, run, id, call);
    FirstSpawn(c, run, id, call);
    var spawned := SpawnResult(c, Initial(c), run, id, call).device;
    FirstTicked(c, spawned, run, id, call);
    var ended := TickResult(c, spawned, FirstTick(run)).device;
    LoadedTwice(c, ended, run, decorator, CallNode(id, call));
    var one := LoadNow(c, ended, Graph(Some(decorator.id), []));
    var two := LoadNow(c, one.device, Graph(Some(decorator.id), [decorator]));
    NoneFinished(c, ended, run, decorator, CallNode(id, call));
    NothingFinished(c, one.device);
    AfreshIsInvoked(c, two.device, m, decorator.id);
  }

  lemma NoneFinished(c: Config, d: Device, run: Run, decorator: Node, program: Node)
    requires JustEnded(c, d, run, decorator, program)
    ensures FinishedResult(c, d) == Result(d, true)
  {
    NothingFinished(c, d);
  }

  /** There are such a device, run and tick. */
  lemma ThereIsOne()
    ensures exists c: Config, run: Run, id: Uuid, m: Meets ::
              Apart(c, run, id) && LowersAll(c)
              && m.haltsWritten && m.revisionWritten && m.lowers && m.revisionRewritten
              && OutcomeOf(m, run.decorator) != Unreached
  {
    var c := Config(Uuid(0), {}, {}, g => true, (f, g) => true);
    var run := Run(Uuid(9), "status", Uuid(1), {});
    var m := Meets(true, true, 0, true, true, map[run.decorator := Answered(Running)], true, true);
    assert Apart(c, run, Uuid(2)) && OutcomeOf(m, run.decorator) == Answered(Running);
  }
}
