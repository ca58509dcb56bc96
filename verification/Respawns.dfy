/**
 A live run spawned again: what its graph may name, and what it lets go.

 A run holds what its decorator reaches and the detached nodes it was spawned
 with.  Of those, its own are the ones nothing besides it holds, and a graph
 spawned with its program's root names only its own and new ones.

 A graph the run already runs makes no edit, yet gives the run another list of
 detached nodes.  `AbandoningTells` says when that changes the main behavior,
 and `RespawnLetsGo` shows a run for which it does.
 */
module Respawns {
  import opened Integers
  import opened Digraphs
  import opened Graphs
  import opened GraphEdits
  import opened Scaffolds
  import opened Grafts

  /** The run's nodes but its decorator. */
  ghost function RunHolds(g: Graph, run: Run): set<Uuid> {
    HeldBy(Children(ById(g.nodes)), {run}) - {run.decorator}
  }

  ghost function StaysOutside(g: Graph, runner: Uuid, mainRoot: Option<Uuid>, run: Run): set<Uuid> {
    HeldOutside(g, runner, mainRoot, RunHolds(g, run) + {run.decorator})
  }

  /** The nodes only the run holds, rooted at `root`. */
  ghost function OwnGraph(g: Graph, runner: Uuid, mainRoot: Option<Uuid>, run: Run, root: Option<Uuid>): Graph {
    Graph(root, Kept(g.nodes, IdsOf(g.nodes) - (RunHolds(g, run) - StaysOutside(g, runner, mainRoot, run))))
  }

  /** A graph spawned again names the run's own nodes and new ones. */
  ghost predicate NamesItsOwn(g: Graph, runner: Uuid, mainRoot: Option<Uuid>, run: Run, nodes: seq<Node>) {
    forall n :: n in nodes ==>
      (n.id in IdsOf(g.nodes) ==> n.id in RunHolds(g, run)) && n.id !in StaysOutside(g, runner, mainRoot, run)
  }

  lemma {:induction false} KeptUnique(nodes: seq<Node>, out: set<Uuid>)
    requires UniqueIds(nodes)
    ensures UniqueIds(Kept(nodes, out)) && IdsOf(Kept(nodes, out)) == IdsOf(nodes) - out
    decreases |nodes|
  {
    if nodes != [] {
      var init, last := nodes[..|nodes| - 1], nodes[|nodes| - 1];
      UniqueSplits(nodes);
      IdsSplit(nodes);
      KeptUnique(init, out);
      if last.id !in out {
        OneMoreNode(Kept(init, out), last);
      } else {
        assert Kept(nodes, out) == Kept(init, out);
      }
    }
  }

  lemma OwnHolds(g: Graph, runner: Uuid, mainRoot: Option<Uuid>, run: Run, root: Option<Uuid>)
    requires UniqueIds(g.nodes)
    ensures var own := OwnGraph(g, runner, mainRoot, run, root);
            && UniqueIds(own.nodes)
            && IdsOf(own.nodes) == IdsOf(g.nodes) * (RunHolds(g, run) - StaysOutside(g, runner, mainRoot, run))
            && (forall n :: n in own.nodes ==> n in g.nodes)
  {
    var out := IdsOf(g.nodes) - (RunHolds(g, run) - StaysOutside(g, runner, mainRoot, run));
    KeptUnique(g.nodes, out);
    KeptHolds(g.nodes, out);
  }

  /** A diff changes nodes of its target, and removes nodes of its start. */
  lemma DiffNames(from: Graph, to: Graph, diff: GraphDiff)
    requires UniqueIds(to.nodes) && IsDiff(from, to, diff)
    ensures ChangedBy(diff) <= IdsOf(to.nodes)
    ensures forall s :: s in diff.set_ ==> s in to.nodes
    ensures to.root.Some? ==> SetOf(diff.remove) == IdsOf(from.nodes) - IdsOf(to.nodes)
  {
    SetWholeHolds(from, to, to.nodes);
    ByIdKeys(to.nodes);
    forall b | b in diff.bind ensures b.node in IdsOf(to.nodes) {
      assert ToBind(from, to, b);
    }
    forall p | p in diff.unbind ensures p.node in IdsOf(to.nodes) {
      assert ToUnbind(from, to, p);
    }
  }

  /**
   Spawned again, a run abandons a node: one it kept detached that its graph
   lists no more, and that neither the main behavior, a run's tree, nor
   another run holds.
   */
  ghost predicate Abandons(g: Graph, runner: Uuid, mainRoot: Option<Uuid>, others: set<Run>, run: Run, nodes: seq<Node>)
  {
    exists d :: d in run.detached && d in IdsOf(g.nodes) && d != runner && d !in IdsOf(nodes)
                && d !in Reach(Children(ById(g.nodes)), RootSet(mainRoot))
                && d !in HeldBy(Children(ById(g.nodes)), others + {run.(detached := {})})
  }

  lemma HeldGrows(edges: Edges<Uuid>, others: set<Run>, run: Run)
    ensures HeldBy(edges, others + {run})
            == HeldBy(edges, others + {run.(detached := {})}) + run.detached
  {
    RunsGrow(others, run);
    RunsGrow(others, run.(detached := {}));
  }

  /** Another list of detached nodes leaves the main behavior as it is exactly
      when each node it drops is held or not the main behavior's anyway. */
  lemma DetachedTells(g: Graph, runner: Uuid, mainRoot: Option<Uuid>, others: set<Run>, run: Run, detached: set<Uuid>)
    requires UniqueIds(g.nodes)
    requires detached <= HeldBy(Children(ById(g.nodes)), others + {run})
    ensures MainGraph(g, runner, mainRoot, others + {run})
            == MainGraph(g, runner, mainRoot, others + {run.(detached := detached)})
            <==> forall d :: d in run.detached && d in IdsOf(g.nodes) && d != runner
                             && d !in Reach(Children(ById(g.nodes)), RootSet(mainRoot)) ==>
                   d in HeldBy(Children(ById(g.nodes)), others + {run.(detached := {})}) + detached
  {
    var edges := Children(ById(g.nodes));
    HeldGrows(edges, others, run);
    HeldGrows(edges, others, run.(detached := detached));
    SameBut(IdsOf(g.nodes), HeldBy(edges, others + {run.(detached := {})}), run.detached, detached,
            Reach(edges, RootSet(mainRoot)), runner);
    KeptTells(g.nodes, NotMain(edges, runner, mainRoot, others + {run}),
              NotMain(edges, runner, mainRoot, others + {run.(detached := detached)}));
  }

  lemma SameBut<T>(ids: set<T>, held: set<T>, a: set<T>, b: set<T>, main: set<T>, runner: T)
    requires b <= held + a
    ensures ids * (held + a - main + {runner}) == ids * (held + b - main + {runner})
            <==> forall d :: d in a && d in ids && d != runner && d !in main ==> d in held + b
  {
    if ids * (held + a - main + {runner}) == ids * (held + b - main + {runner}) {
      forall d | d in a && d in ids && d != runner && d !in main ensures d in held + b {
        assert d in ids * (held + a - main + {runner});
      }
    }
  }

  /** What a graph the run runs lists, the run holds with that graph's
      detached nodes. */
  lemma ListedIsHeld(g: Graph, run: Run, nodes: seq<Node>, root: Uuid, native: set<Uuid>)
    requires UniqueIds(g.nodes) && IsTree(nodes, root, native) && (forall n :: n in nodes ==> n in g.nodes)
    requires root in Next(Children(ById(g.nodes)), run.decorator)
    ensures IdsOf(nodes) <= Reach(Children(ById(g.nodes)), {run.decorator}) + Parentless(nodes, root)
  {
    TreeIsClosed(nodes, root, native);
    TreeIsReached(g, nodes, root);
    var edges := Children(ById(g.nodes));
    assert run.decorator in Reach(edges, {run.decorator});
    ReachGrows(edges, {root}, {run.decorator});
  }

  lemma TreeIsReached(g: Graph, nodes: seq<Node>, root: Uuid)
    requires UniqueIds(g.nodes) && UniqueIds(nodes) && (forall n :: n in nodes ==> n in g.nodes)
    ensures Reach(Children(ById(nodes)), {root}) <= Reach(Children(ById(g.nodes)), {root})
  {
    var edges, alone := Children(ById(g.nodes)), Children(ById(nodes));
    var there := Reach(edges, {root});
    ByIdKeys(nodes);
    forall id, child | id in there && child in Next(alone, id) ensures child in there {
      var n :| n in nodes && n.id == id;
      NextOf(nodes, n);
      NextOf(g.nodes, n);
    }
    ReachIsLeast(alone, {root}, there);
  }

  /** The run's own nodes are the spawned graph's already. */
  ghost predicate RunsAlready(g: Graph, runner: Uuid, mainRoot: Option<Uuid>, run: Run, graph: Graph) {
    ById(OwnGraph(g, runner, mainRoot, run, graph.root).nodes) == ById(graph.nodes)
  }

  lemma RunsAlreadyListed(g: Graph, runner: Uuid, mainRoot: Option<Uuid>, run: Run, graph: Graph)
    requires UniqueIds(g.nodes) && UniqueIds(graph.nodes) && RunsAlready(g, runner, mainRoot, run, graph)
    ensures forall n :: n in graph.nodes ==> n in g.nodes && n.id in RunHolds(g, run)
  {
    var own := OwnGraph(g, runner, mainRoot, run, graph.root);
    OwnHolds(g, runner, mainRoot, run, graph.root);
    forall n | n in graph.nodes ensures n in g.nodes && n.id in RunHolds(g, run) {
      ByIdFinds(graph.nodes, n);
      assert n in own.nodes;
      assert n.id in IdsOf(own.nodes);
    }
  }

  /**
   A graph the run already runs changes no node, and leaves the main behavior
   as it is exactly when the run abandons no node.
   */
  lemma AbandoningTells(g: Graph, runner: Uuid, mainRoot: Option<Uuid>, others: set<Run>, run: Run, graph: Graph,
                        root: Uuid, native: set<Uuid>, detached: set<Uuid>)
    requires UniqueIds(g.nodes) && IsTree(graph.nodes, root, native) && detached == Parentless(graph.nodes, root)
    requires root in Next(Children(ById(g.nodes)), run.decorator)
    requires RunsAlready(g, runner, mainRoot, run, graph)
    ensures MainGraph(g, runner, mainRoot, others + {run})
            == MainGraph(g, runner, mainRoot, others + {run.(detached := detached)})
            <==> !Abandons(g, runner, mainRoot, others, run, graph.nodes)
  {
    var edges := Children(ById(g.nodes));
    RunsAlreadyListed(g, runner, mainRoot, run, graph);
    ListedIsHeld(g, run, graph.nodes, root, native);
    HeldByOne(edges, run);
    RunsGrow(others, run.(detached := {}));
    RunsGrow(others, run);
    ReachJoins(edges, DecoratorsOf(others), {run.decorator});
    DetachedTells(g, runner, mainRoot, others, run, detached);
  }

  // A run that abandons a node: an edit placed its detached call under a loose
  // control node, and its graph, spawned again, leaves the call out.

  /** The runner over a decorator over a program, beside which a loose node
      holds a call. */
  datatype Cast = Cast(runner: Node, decorator: Node, program: Node, loose: Node, call: Node) {
    predicate Stands() {
      && runner.id != decorator.id && runner.id != program.id && runner.id != loose.id && runner.id != call.id
      && decorator.id != program.id && decorator.id != loose.id && decorator.id != call.id
      && program.id != loose.id && program.id != call.id && loose.id != call.id
      && ChildList(runner) == [decorator.id] && ChildList(decorator) == [program.id] && ChildList(program) == []
      && ChildList(loose) == [call.id] && ChildList(call) == []
    }

    function Ids(): set<Uuid> {
      {runner.id, decorator.id, program.id, loose.id, call.id}
    }

    /** The scaffold's nodes, in whatever order. */
    ghost predicate Plays(g: Graph) {
      && Stands() && UniqueIds(g.nodes) && IdsOf(g.nodes) == Ids()
      && runner in g.nodes && decorator in g.nodes && program in g.nodes && loose in g.nodes && call in g.nodes
    }

    function Program(): Graph {
      Graph(Some(program.id), [program])
    }
  }

  lemma CastReach(c: Cast, edges: Edges<Uuid>)
    requires c.Stands()
    requires Next(edges, c.decorator.id) == [c.program.id] && Next(edges, c.program.id) == []
    requires Next(edges, c.loose.id) == [c.call.id] && Next(edges, c.call.id) == []
    ensures Reach(edges, {c.decorator.id}) == {c.decorator.id, c.program.id}
    ensures Reach(edges, {c.loose.id}) == {c.loose.id, c.call.id}
    ensures Reach(edges, {}) == {}
  {
    ReachIsLeast(edges, {c.decorator.id}, {c.decorator.id, c.program.id});
    assert c.program.id in Next(edges, c.decorator.id);
    ReachIsLeast(edges, {c.loose.id}, {c.loose.id, c.call.id});
    assert c.call.id in Next(edges, c.loose.id);
    ReachIsLeast(edges, {}, {});
  }

  lemma CastEdges(c: Cast, g: Graph)
    requires c.Plays(g)
    ensures var edges := Children(ById(g.nodes));
            && Reach(edges, {c.decorator.id}) == {c.decorator.id, c.program.id}
            && Reach(edges, {c.loose.id}) == {c.loose.id, c.call.id}
            && Reach(edges, {}) == {}
  {
    NextOf(g.nodes, c.decorator);
    NextOf(g.nodes, c.program);
    NextOf(g.nodes, c.loose);
    NextOf(g.nodes, c.call);
    CastReach(c, Children(ById(g.nodes)));
  }

  /** The run holds the call beside its program. */
  lemma CastHolds(c: Cast, g: Graph, run: Run)
    requires c.Plays(g) && run.decorator == c.decorator.id && run.detached == {c.call.id}
    ensures RunHolds(g, run) == {c.program.id, c.call.id}
    ensures HeldBy(Children(ById(g.nodes)), {run.(detached := {})}) == {c.decorator.id, c.program.id}
  {
    var edges := Children(ById(g.nodes));
    CastEdges(c, g);
    HeldByOne(edges, run);
    HeldByOne(edges, run.(detached := {}));
    OneLeaves(c.decorator.id, c.program.id, c.call.id);
  }

  lemma OneLeaves(a: Uuid, b: Uuid, c: Uuid)
    requires a != b && a != c
    ensures {a, b} + {c} - {a} == {b, c} && {a, b} + {} == {a, b}
  {
  }

  /** So does the loose node. */
  lemma CastStays(c: Cast, g: Graph, run: Run)
    requires c.Plays(g) && run.decorator == c.decorator.id && run.detached == {c.call.id}
    ensures StaysOutside(g, c.runner.id, None, run) == {c.loose.id, c.call.id}
  {
    CastEdges(c, g);
    CastHolds(c, g, run);
    assert RootSet(None) == {};
    AllButOne(c.runner.id, c.decorator.id, c.program.id, c.loose.id, c.call.id);
  }

  lemma AllButOne(a: Uuid, b: Uuid, c: Uuid, d: Uuid, e: Uuid)
    requires d !in {a, b, c, e}
    ensures {a, b, c, d, e} - {a} - ({c, e} + {b}) + {} == {d}
  {
  }

  lemma CastRuns(c: Cast, g: Graph, run: Run)
    requires c.Plays(g) && run.decorator == c.decorator.id && run.detached == {c.call.id}
    ensures RunsAlready(g, c.runner.id, None, run, c.Program())
  {
    hide Reach;
    var graph := c.Program();
    CastHolds(c, g, run);
    CastStays(c, g, run);
    OneNodeIsTree(c.program);
    OwnHolds(g, c.runner.id, None, run, graph.root);
    var own := OwnGraph(g, c.runner.id, None, run, graph.root);
    assert IdsOf(own.nodes) == IdsOf(graph.nodes);
    forall n | n in own.nodes ensures n == c.program {
      assert n.id in IdsOf(own.nodes);
      OneOfAnId(g.nodes, c.program, n);
    }
    SameById(own.nodes, graph.nodes);
  }

  lemma CastAbandons(c: Cast, g: Graph, run: Run)
    requires c.Plays(g) && run.decorator == c.decorator.id && run.detached == {c.call.id}
    ensures Abandons(g, c.runner.id, None, {}, run, c.Program().nodes)
  {
    CastEdges(c, g);
    CastHolds(c, g, run);
    OneNodeIsTree(c.program);
    var edges, kept := Children(ById(g.nodes)), run.(detached := {});
    assert {} + {kept} == {kept};
    assert RootSet(None) == {};
    var d := c.call.id;
    assert d != c.decorator.id && d != c.program.id;
    assert d !in HeldBy(edges, {kept});
    assert d !in Reach(edges, RootSet(None)) && d in IdsOf(g.nodes) && d !in IdsOf(c.Program().nodes);
  }

  lemma CastNames(c: Cast, g: Graph, run: Run)
    requires c.Plays(g) && run.decorator == c.decorator.id && run.detached == {c.call.id}
    ensures NamesItsOwn(g, c.runner.id, None, run, c.Program().nodes)
  {
    CastHolds(c, g, run);
    CastStays(c, g, run);
    forall n | n in c.Program().nodes ensures n == c.program {
    }
    assert c.program.id in RunHolds(g, run) && c.program.id !in StaysOutside(g, c.runner.id, None, run);
  }

  /** Nothing changes in the graph, yet the call becomes the main behavior's:
      a read answers another graph at the same revision. */
  lemma RespawnLetsGo(c: Cast, g: Graph, run: Run)
    requires c.Plays(g) && run.decorator == c.decorator.id && run.detached == {c.call.id}
    ensures IsTree(c.Program().nodes, c.program.id, {}) && Parentless(c.Program().nodes, c.program.id) == {}
    ensures NamesItsOwn(g, c.runner.id, None, run, c.Program().nodes)
    ensures RunsAlready(g, c.runner.id, None, run, c.Program())
    ensures MainGraph(g, c.runner.id, None, {} + {run})
            != MainGraph(g, c.runner.id, None, {} + {run.(detached := {})})
  {
    CastNames(c, g, run);
    CastRuns(c, g, run);
    OneNodeIsTree(c.program);
    CastAbandons(c, g, run);
    NextOf(g.nodes, c.decorator);
    AbandoningTells(g, c.runner.id, None, {}, run, c.Program(), c.program.id, {}, {});
  }

  lemma OneNodeIsTree(n: Node)
    requires ChildList(n) == []
    ensures IsTree([n], n.id, {}) && Parentless([n], n.id) == {} && IdsOf([n]) == {n.id}
  {
    var nodes := [n];
    assert nodes[..0] == [];
    assert Slots(nodes) == [];
    assert nodes[0] == n && n in nodes;
    NextOf(nodes, n);
    ReachIsLeast(Children(ById(nodes)), {n.id}, {n.id});
  }
}
