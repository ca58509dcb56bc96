/**
 A halt refused, from an interpreter's start, and the run's nodes left behind.

 A tree that reads a port nothing binds does not lower.  A call is spawned,
 and an edit adds two nodes to the main behavior: one bound to the call's
 port, and one bound to the first one's.  Halting the run would prune the call
 and unbind the first, and the second would read a port nothing binds: the
 prune is refused.  The run has left the list all the same, so its nodes are
 the main behavior's, at the same revision.

 `HaltStrands` follows the operations, and `ThereIsOne` gives such nodes.
 */
module StrandedRuns {
  import opened Integers
  import opened Digraphs
  import opened Graphs
  import opened GraphEdits
  import opened Scaffolds
  import opened Grafts
  import opened Decorators
  import opened ScaffoldEdits
  import opened Devices
  import opened Lifetimes
  import opened ForgottenLatches
  import AbandonedNodes

  /** A return needs no binding: that of a detached call has a cell of its own. */
  predicate IsBound(port: Port, nodes: seq<Node>) {
    exists n :: n in nodes && n.id == port.node && (port.port in n.bind || port.port == RETURN_PORT)
  }

  predicate PortsBound(n: Node, nodes: seq<Node>) {
    forall port :: port in n.bind && SourcePort(n.bind[port]).Some? ==> IsBound(SourcePort(n.bind[port]).value, nodes)
  }

  /** No node reads a port that nothing binds. */
  predicate ReadsBound(g: Graph) {
    forall n :: n in g.nodes ==> PortsBound(n, g.nodes)
  }

  /** A tree is built exactly of a graph whose nodes read none such. */
  ghost predicate LowersBound(c: Config) {
    (forall g :: c.builds(g) <==> ReadsBound(g)) && forall functions, g :: c.lowers(functions, g)
  }

  /** Two nodes without children: the feeder is bound to the call's port, and
      the reader to the feeder's. */
  ghost predicate Feeds(c: Config, run: Run, id: Uuid, reader: Node, feeder: Node, port: Uuid) {
    && Apart(c, run, id) && reader.id != feeder.id && port != RETURN_PORT
    && {reader.id, feeder.id} !! {c.runner, id, run.decorator}
    && ChildList(reader) == [] && ChildList(feeder) == []
    && reader.bind == map[port := Reads(Port(feeder.id, port))]
    && feeder.bind == map[port := Reads(Port(id, RUN_CALL_PARAMETER))]
  }

  lemma FirstReadsNone(c: Config, g: Graph, run: Run, id: Uuid, call: Value)
    requires Apart(c, run, id) && HoldsFirst(c, g, run, id, call)
    ensures ReadsBound(g)
  {
    var rn, program := RunnerNode(c.runner, None, [run]), CallNode(id, call);
    var decorator := DecoratorNode(run.decorator, run.status, id);
    forall n | n in g.nodes ensures PortsBound(n, g.nodes) {
      assert n.id in IdsOf(g.nodes);
      assert n == rn || n == decorator || n == program;
    }
  }

  // The edit.

  function FeedEdit(reader: Node, feeder: Node): GraphDiff {
    GraphDiff([], [reader, feeder], [], [], None)
  }

  function Fed(c: Config, g: Graph, run: Run, reader: Node, feeder: Node): Graph {
    Graph(g.root, SetAll(g.nodes, [reader, feeder] + [RunnerNode(c.runner, None, [run])]))
  }

  /** The run's nodes under the runner, and the two nodes. */
  ghost predicate HoldsFed(c: Config, g: Graph, run: Run, id: Uuid, call: Value, reader: Node, feeder: Node) {
    && UniqueIds(g.nodes) && g.root == Some(c.runner)
    && IdsOf(g.nodes) == {c.runner, run.decorator, id, reader.id, feeder.id}
    && RunnerNode(c.runner, None, [run]) in g.nodes && DecoratorNode(run.decorator, run.status, id) in g.nodes
    && CallNode(id, call) in g.nodes && reader in g.nodes && feeder in g.nodes
  }

  lemma FeedMakes(c: Config, g: Graph, run: Run, id: Uuid, call: Value, reader: Node, feeder: Node, port: Uuid)
    requires Feeds(c, run, id, reader, feeder, port) && HoldsFirst(c, g, run, id, call)
    ensures HoldsFed(c, Fed(c, g, run, reader, feeder), run, id, call, reader, feeder)
    ensures Applied(g, OntoScaffold(FeedEdit(reader, feeder), c.runner, None, [run]))
            == Some(Fed(c, g, run, reader, feeder))
  {
    hide Reach, SetAll, Applied;
    var rn := RunnerNode(c.runner, None, [run]);
    var set_ := [reader, feeder] + [rn];
    AbandonedNodes.TwoNodes(reader, feeder);
    OneMoreNode([reader, feeder], rn);
    SetAllHolds(g.nodes, set_);
    assert SetOf<Uuid>([]) == {};
    RemovesNothing(g, set_, []);
    assert set_[0] in set_ && set_[1] in set_ && set_[2] in set_;
  }

  lemma FedReadsBound(c: Config, g: Graph, run: Run, id: Uuid, call: Value, reader: Node, feeder: Node, port: Uuid)
    requires Feeds(c, run, id, reader, feeder, port) && HoldsFed(c, g, run, id, call, reader, feeder)
    ensures ReadsBound(g)
  {
    var rn, program := RunnerNode(c.runner, None, [run]), CallNode(id, call);
    var decorator := DecoratorNode(run.decorator, run.status, id);
    assert IsBound(Port(feeder.id, port), g.nodes);
    assert IsBound(Port(id, RUN_CALL_PARAMETER), g.nodes) by {
      assert program in g.nodes;
    }
    forall n | n in g.nodes ensures PortsBound(n, g.nodes) {
      assert n.id in IdsOf(g.nodes);
      assert n == rn || n == decorator || n == program || n == reader || n == feeder;
    }
  }

  lemma FedSelectsNone(c: Config, g: Graph, run: Run, id: Uuid, call: Value, reader: Node, feeder: Node, port: Uuid)
    requires Feeds(c, run, id, reader, feeder, port) && HoldsFed(c, g, run, id, call, reader, feeder)
    ensures SelectsNoReturn(g)
  {
    var rn, program := RunnerNode(c.runner, None, [run]), CallNode(id, call);
    var nodes := [rn, DecoratorNode(run.decorator, run.status, id), program, reader, feeder];
    assert nodes[0] in nodes && nodes[1] in nodes && nodes[2] in nodes && nodes[3] in nodes && nodes[4] in nodes;
    OnlyThese(g, nodes);
  }

  lemma FedEdges(c: Config, g: Graph, run: Run, id: Uuid, call: Value, reader: Node, feeder: Node, port: Uuid)
    requires Feeds(c, run, id, reader, feeder, port) && HoldsFed(c, g, run, id, call, reader, feeder)
    ensures var edges := Children(ById(g.nodes));
            && AcyclicUnder(edges, c.runner) && Reach(edges, {run.decorator}) == {run.decorator, id}
            && Reach(edges, {reader.id, feeder.id}) == {reader.id, feeder.id} && Reach(edges, {}) == {}
  {
    hide Reach, AcyclicUnder;
    var edges, rn := Children(ById(g.nodes)), RunnerNode(c.runner, None, [run]);
    ByIdKeys(g.nodes);
    NextOf(g.nodes, rn);
    NextOf(g.nodes, DecoratorNode(run.decorator, run.status, id));
    NextOf(g.nodes, CallNode(id, call));
    NextOf(g.nodes, reader);
    NextOf(g.nodes, feeder);
    RunnerHoldsAll(c.runner, None, [run]);
    RunIsOne(run);
    ChainIsAcyclic(edges, c.runner, run.decorator, id);
    EdgesReach(edges, run.decorator, id);
    ReachIsLeast(edges, {reader.id, feeder.id}, {reader.id, feeder.id});
    ReachIsLeast(edges, {}, {});
  }

  lemma FeedIsApplied(c: Config, d: Device, run: Run, id: Uuid, call: Value, reader: Node, feeder: Node, port: Uuid)
    requires Feeds(c, run, id, reader, feeder, port) && HoldsFirst(c, d.graph, run, id, call)
    requires d.runs == [run] && d.finished == [] && d.mainRoot == None
    requires LowersBound(c)
    ensures var r := ApplyResult(c, d, FeedEdit(reader, feeder));
            && r.ok && r.device.graph == Fed(c, d.graph, run, reader, feeder)
            && r.device.runs == [run] && r.device.finished == [] && r.device.mainRoot == None
  {
    hide Reach, AcyclicUnder, Applied, HoldsFirst, HoldsFed, ApplyResult, ReadsBound, Fed, SelectsNoReturn, FeedEdit,
         Refuses, OntoScaffold, NewMainRoot;
    var after := Fed(c, d.graph, run, reader, feeder);
    FeedMakes(c, d.graph, run, id, call, reader, feeder, port);
    FedEdges(c, after, run, id, call, reader, feeder, port);
    FedReadsBound(c, after, run, id, call, reader, feeder, port);
    FedSelectsNone(c, after, run, id, call, reader, feeder, port);
    MayFeed(c, d, run, id, reader, feeder, port);
    AbandonedNodes.ApplyDoes(c, d, FeedEdit(reader, feeder),
                             OntoScaffold(FeedEdit(reader, feeder), c.runner, None, [run]), after);
  }

  lemma MayFeed(c: Config, d: Device, run: Run, id: Uuid, reader: Node, feeder: Node, port: Uuid)
    requires Feeds(c, run, id, reader, feeder, port) && d.runs == [run] && d.finished == []
    ensures !Refuses(d.graph, c.runner, All(d), FeedEdit(reader, feeder))
    ensures NewMainRoot(None, FeedEdit(reader, feeder)) == None && All(d) == {run}
  {
    var diff := FeedEdit(reader, feeder);
    AbandonedNodes.TwoNodes(reader, feeder);
    AbandonedNodes.OneRun(run);
    assert ChildrenOf(diff.set_) == {} && ChangedBy(diff) == {reader.id, feeder.id};
    assert SetOf(diff.remove) == {};
  }

  // The halt.

  lemma CallWouldLeave(c: Config, g: Graph, run: Run, id: Uuid, call: Value, reader: Node, feeder: Node, port: Uuid)
    requires Feeds(c, run, id, reader, feeder, port) && HoldsFed(c, g, run, id, call, reader, feeder)
    ensures Pruned(g, c.runner, None, {run}) == {run.decorator, id}
  {
    hide Reach;
    FedEdges(c, g, run, id, call, reader, feeder, port);
    AbandonedNodes.OneRun(run);
    HeldByOne(Children(ById(g.nodes)), run);
    var others := IdsOf(g.nodes) - {c.runner} - {run.decorator, id} + RootSet(None);
    assert others == {reader.id, feeder.id};
    PrunedFrom(g, c.runner, None, {run}, {run.decorator, id}, others);
  }

  /** Without the call, the feeder is bound no more. */
  lemma LeftHolds(c: Config, g: Graph, run: Run, id: Uuid, call: Value, reader: Node, feeder: Node, port: Uuid,
                  rn: Node)
    requires Feeds(c, run, id, reader, feeder, port) && HoldsFed(c, g, run, id, call, reader, feeder)
    requires rn.id == c.runner
    ensures var left := Left(g, {run.decorator, id}, rn);
            UniqueIds(left.nodes) && reader in left.nodes && feeder.(bind := map[]) in left.nodes
  {
    hide SetNode, Without;
    var gone := {run.decorator, id};
    var kept := Without(g.nodes, gone);
    WithoutHolds(g.nodes, gone);
    SetNodeHolds(kept, rn);
    assert KeptBind(reader.bind, gone) == reader.bind && KeptBind(feeder.bind, gone) == map[];
    assert reader.(bind := reader.bind) == reader;
  }

  lemma ReaderIsUnbound(nodes: seq<Node>, reader: Node, feeder: Node, port: Uuid)
    requires UniqueIds(nodes) && reader in nodes && feeder.(bind := map[]) in nodes
    requires port in reader.bind && reader.bind[port] == Reads(Port(feeder.id, port)) && port != RETURN_PORT
    ensures !PortsBound(reader, nodes)
  {
    var bare := feeder.(bind := map[]);
    forall n | n in nodes && n.id == feeder.id ensures port !in n.bind {
      OneOfAnId(nodes, bare, n);
    }
    assert !IsBound(Port(feeder.id, port), nodes);
  }

  /** The reader then reads a port nothing binds. */
  lemma LeftUnbound(c: Config, g: Graph, run: Run, id: Uuid, call: Value, reader: Node, feeder: Node, port: Uuid,
                    rn: Node)
    requires Feeds(c, run, id, reader, feeder, port) && HoldsFed(c, g, run, id, call, reader, feeder)
    requires rn.id == c.runner
    ensures !ReadsBound(Left(g, {run.decorator, id}, rn))
  {
    hide HoldsFed, Left;
    LeftHolds(c, g, run, id, call, reader, feeder, port, rn);
    ReaderIsUnbound(Left(g, {run.decorator, id}, rn).nodes, reader, feeder, port);
  }

  lemma RootedAtRunner(c: Config, g: Graph, run: Run, id: Uuid, call: Value, reader: Node, feeder: Node, port: Uuid)
    requires Feeds(c, run, id, reader, feeder, port) && HoldsFed(c, g, run, id, call, reader, feeder)
    ensures g.root == Some(c.runner) && c.runner !in {run.decorator, id}
  {
  }

  lemma HaltIsRefused(c: Config, d: Device, run: Run, id: Uuid, call: Value, reader: Node, feeder: Node, port: Uuid)
    requires Feeds(c, run, id, reader, feeder, port) && HoldsFed(c, d.graph, run, id, call, reader, feeder)
    requires d.runs == [run] && d.finished == [] && d.mainRoot == None
    requires LowersBound(c)
    ensures HaltResult(c, d, run.task) == Result(d.(runs := []), false)
  {
    hide Reach, AcyclicUnder, Applied, HoldsFed, ReadsBound, Pruned, MainGraph, ById, Left;
    var gone, rn := {run.decorator, id}, RunnerNode(c.runner, None, []);
    var remove := ListOf(gone);
    AbandonedNodes.OneRun(run);
    CallWouldLeave(c, d.graph, run, id, call, reader, feeder, port);
    LeftUnbound(c, d.graph, run, id, call, reader, feeder, port, rn);
    RootedAtRunner(c, d.graph, run, id, call, reader, feeder, port);
    assert rn.id !in SetOf(remove);
    SetOfHas(remove);
    PruneMakes(d.graph, remove, rn);
    assert d.runs[..0] + d.runs[1..] == [] && d.runs[0] == run;
  }

  lemma NodesAreStranded(c: Config, d: Device, run: Run, id: Uuid, call: Value, reader: Node, feeder: Node, port: Uuid)
    requires Feeds(c, run, id, reader, feeder, port) && HoldsFed(c, d.graph, run, id, call, reader, feeder)
    requires d.runs == [run] && d.finished == [] && d.mainRoot == None
    ensures LeavesBehind(c, d, {}) && All(d.(runs := [])) == {}
  {
    hide Reach;
    FedEdges(c, d.graph, run, id, call, reader, feeder, port);
    AbandonedNodes.OneRun(run);
    HeldByOne(Children(ById(d.graph.nodes)), run);
    assert DecoratorsOf({}) == {} && DetachedOf({}) == {};
    assert id in IdsOf(d.graph.nodes);
  }

  /**
   From the start, a call spawned, two nodes edited in that read it one through
   the other, and the run halted: the halt fails, and a read answers another
   graph at the same revision.
   */
  lemma HaltStrands(c: Config, run: Run, id: Uuid, call: Value, reader: Node, feeder: Node, port: Uuid)
    requires Feeds(c, run, id, reader, feeder, port) && LowersBound(c)
    ensures var spawned := SpawnResult(c, Initial(c), run, id, call);
            var edited := ApplyResult(c, spawned.device, FeedEdit(reader, feeder));
            var halted := HaltResult(c, edited.device, run.task);
            && MakesNewIds(Initial(c), SpawnsCall(run, id, call)) && spawned.ok && edited.ok
            && !halted.ok && halted.device.runs == [] && !Revises(c, edited.device, halted.device)
  {
    hide Reach, AcyclicUnder, HoldsFirst, HoldsFed, ReadsBound, SpawnResult, ApplyResult, HaltResult, Stands, Fed,
         FirstSpawned, LeavesBehind, MainGraph, FeedEdit, Untaken;
    FirstIsNew(c, run, id, call);
    SpawnIsFirst(c, run, id, call);
    var spawned := SpawnResult(c, Initial(c), run, id, call);
    FeedIsApplied(c, spawned.device, run, id, call, reader, feeder, port);
    FeedMakes(c, spawned.device.graph, run, id, call, reader, feeder, port);
    var edited := ApplyResult(c, spawned.device, FeedEdit(reader, feeder));
    HaltIsRefused(c, edited.device, run, id, call, reader, feeder, port);
    NodesAreStranded(c, edited.device, run, id, call, reader, feeder, port);
    InitialStands(c);
    assert run.(detached := {}) == run;
    StepStands(c, Initial(c), SpawnsCall(run, id, call), spawned);
    assert MakesNewIds(spawned.device, Edits(FeedEdit(reader, feeder)));
    StepStands(c, spawned.device, Edits(FeedEdit(reader, feeder)), edited);
    StepFails(c, edited.device, Halts(run.task), HaltResult(c, edited.device, run.task));
    HaltRefuses(c, edited.device, run.task);
    assert edited.device.runs[..0] + edited.device.runs[1..] == [];
  }

  lemma SpawnIsFirst(c: Config, run: Run, id: Uuid, call: Value)
    requires Apart(c, run, id) && LowersBound(c)
    ensures var r := SpawnResult(c, Initial(c), run, id, call);
            && r.ok && HoldsFirst(c, r.device.graph, run, id, call)
            && r.device.runs == [run] && r.device.finished == [] && r.device.mainRoot == None
  {
    hide Reach, HoldsFirst, ReadsBound, SpawnResult, CallFragment;
    InitialIsOne(c);
    FirstGraph(c, Initial(c).graph, run, id, call);
    FirstReadsNone(c, FirstSpawned(c, run, id, call), run, id, call);
    FirstSpawn(c, run, id, call);
  }

  /** There are such a device and such nodes. */
  lemma ThereIsOne()
    ensures exists c: Config, run: Run, id: Uuid, reader: Node, feeder: Node, port: Uuid ::
              Feeds(c, run, id, reader, feeder, port) && LowersBound(c)
  {
    var c := Config(Uuid(0), {}, {}, g => ReadsBound(g), (f, g) => true);
    var run, port := Run(Uuid(9), "status", Uuid(1), {}), Uuid(7);
    var reader := Node(Uuid(3), Uuid(8), map[port := Reads(Port(Uuid(4), port))], None);
    var feeder := Node(Uuid(4), Uuid(8), map[port := Reads(Port(Uuid(2), RUN_CALL_PARAMETER))], None);
    assert Feeds(c, run, Uuid(2), reader, feeder, port);
  }
}
