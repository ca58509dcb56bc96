/**
 Loads: the loaded graph takes the place of the main behavior, but for what the
 runs hold.
 */
module Loads {
  import opened Integers
  import opened Digraphs
  import opened Graphs
  import opened GraphEdits
  import opened Scaffolds
  import opened Grafts
  import opened Decorators
  import opened Respawns
  import opened ScaffoldEdits
  import opened Devices

  /** What leads on alike, but from the runner, is reached alike where the
      runner is not reached. */
  lemma ReachCarried(after: Edges<Uuid>, before: Edges<Uuid>, starts: set<Uuid>, runner: Uuid)
    requires forall id :: id in Reach(before, starts) && id != runner ==> Next(after, id) == Next(before, id)
    requires runner !in Reach(after, starts)
    ensures Reach(after, starts) == Reach(before, starts)
  {
    var there, was := Reach(after, starts), Reach(before, starts);
    forall id, child | id in there * was && child in Next(after, id) ensures child in there * was {
      assert child in Next(before, id);
    }
    ReachIsLeast(after, starts, there * was);
    forall id, child | id in there && child in Next(before, id) ensures child in there {
      assert child in Next(after, id);
    }
    ReachIsLeast(before, starts, there);
  }

  /** A node that neither leaves nor is the runner has the children it has once
      the loaded nodes are set. */
  lemma LoadedChildren(g: Graph, graph: Graph, removed: set<Uuid>, rn: Node, id: Uuid)
    requires UniqueIds(g.nodes) && UniqueIds(graph.nodes) && rn.id !in IdsOf(graph.nodes)
    requires id !in removed && id != rn.id
    ensures Next(Children(ById(SetAll(Without(g.nodes, removed), graph.nodes + [rn]))), id)
            == Next(Children(ById(SetAll(g.nodes, graph.nodes))), id)
  {
    hide SetAll, Without, Children, ById, IdsOf;
    var kept, all := Without(g.nodes, removed), graph.nodes + [rn];
    var after, set_ := SetAll(kept, all), SetAll(g.nodes, graph.nodes);
    OneMoreNode(graph.nodes, rn);
    WithoutHolds(g.nodes, removed);
    SetAllHolds(kept, all);
    SetAllHolds(g.nodes, graph.nodes);
    if id in IdsOf(graph.nodes) {
      var n := NodeOf(graph.nodes, id);
      assert n in all;
      NextOf(after, n);
      NextOf(set_, n);
    } else if id in IdsOf(g.nodes) {
      var n := NodeOf(g.nodes, id);
      NextOf(after, n.(bind := KeptBind(n.bind, removed)));
      NextOf(set_, n);
    } else {
      NextOfNone(after, id);
      NextOfNone(set_, id);
    }
  }

  lemma NodeOf(nodes: seq<Node>, id: Uuid) returns (n: Node)
    requires id in IdsOf(nodes)
    ensures n in nodes && n.id == id
  {
    n :| n in nodes && n.id == id;
  }

  lemma NextOfNone(nodes: seq<Node>, id: Uuid)
    requires id !in IdsOf(nodes)
    ensures Next(Children(ById(nodes)), id) == []
  {
    ByIdKeys(nodes);
  }

  /** What the runs hold once a load succeeded is what they held once its nodes
      were set. */
  lemma LoadHolds(c: Config, d: Device, graph: Graph)
    requires Stands(c, d) && LoadNow(c, d, graph).ok
    ensures HeldBy(Children(ById(LoadNow(c, d, graph).device.graph.nodes)), All(d))
            == HeldBy(Children(ById(SetAll(d.graph.nodes, graph.nodes))), All(d))
  {
    hide Reach, Accepted, AcyclicUnder, SetAll, Without, Children, ById, LoadRemoves;
    var removed := LoadRemoves(d.graph, c.runner, All(d), graph);
    var rn := RunnerNode(c.runner, graph.root, d.runs + d.finished);
    LoadMakes(c, d, graph);
    LoadStands(c, d, graph);
    var after := LoadNow(c, d, graph).device;
    var edges, was := Children(ById(after.graph.nodes)), Children(ById(SetAll(d.graph.nodes, graph.nodes)));
    HangingAreNodes(after.graph, c.runner, graph.root, All(d));
    ReachGrows(edges, DecoratorsOf(All(d)), RootSet(graph.root) + DecoratorsOf(All(d)));
    forall id | id in Reach(was, DecoratorsOf(All(d))) && id != c.runner ensures Next(edges, id) == Next(was, id) {
      HeldStay(d.graph, c.runner, All(d), graph, id);
      LoadedChildren(d.graph, graph, removed, rn, id);
    }
    ReachCarried(edges, was, DecoratorsOf(All(d)), c.runner);
  }

  lemma HeldStay(g: Graph, runner: Uuid, runs: set<Run>, graph: Graph, id: Uuid)
    requires id in Reach(Children(ById(SetAll(g.nodes, graph.nodes))), DecoratorsOf(runs))
    ensures id !in LoadRemoves(g, runner, runs, graph)
  {
  }

  lemma LoadMakes(c: Config, d: Device, graph: Graph)
    requires UniqueIds(d.graph.nodes) && LoadNow(c, d, graph).ok
    ensures var removed := LoadRemoves(d.graph, c.runner, All(d), graph);
            var rn := RunnerNode(c.runner, graph.root, d.runs + d.finished);
            var after := LoadNow(c, d, graph).device;
            && after.graph.nodes == SetAll(Without(d.graph.nodes, removed), graph.nodes + [rn])
            && after.mainRoot == graph.root && after.runs == d.runs && after.finished == d.finished
            && UniqueIds(graph.nodes) && c.runner !in IdsOf(graph.nodes)
  {
    hide Reach, AcyclicUnder, SetAll, Without, MainGraph;
    var removed := LoadRemoves(d.graph, c.runner, All(d), graph);
    OnlySets(d.graph, ListOf(removed), graph.nodes + [RunnerNode(c.runner, graph.root, d.runs + d.finished)]);
  }

  /** What is left once nodes are removed, and others and one more set. */
  lemma SetLeaves(nodes: seq<Node>, removed: set<Uuid>, set_: seq<Node>, rn: Node, n: Node)
    requires UniqueIds(nodes) && UniqueIds(set_) && rn.id !in IdsOf(set_) && n.id != rn.id
    ensures var after := SetAll(Without(nodes, removed), set_ + [rn]);
            && UniqueIds(after) && (n in set_ ==> n in after)
            && (n in after ==> n in set_ || (n.id in IdsOf(nodes) && n.id !in removed))
  {
    hide SetAll, Without;
    var kept, all := Without(nodes, removed), set_ + [rn];
    WithoutHolds(nodes, removed);
    OneMoreNode(set_, rn);
    SetAllHolds(kept, all);
    SetAllShape(kept, all);
    if n in SetAll(kept, all) && n !in set_ {
      assert n in kept && n.id in IdsOf(kept);
    }
  }

  /** The ids a load leaves: what the runs hold, the runner and what is loaded. */
  lemma LoadLeaves(c: Config, d: Device, graph: Graph, n: Node)
    requires Stands(c, d) && LoadNow(c, d, graph).ok && n.id != c.runner
    ensures var nodes := LoadNow(c, d, graph).device.graph.nodes;
            && UniqueIds(nodes)
            && (n in graph.nodes ==> n in nodes)
            && (n in nodes ==> n in graph.nodes || n.id in HeldBy(Children(ById(nodes)), All(d)))
  {
    hide Reach, Accepted, SetAll, Without, Children, ById, HeldBy, LoadNow, UniqueIds, IdsOf;
    LoadHolds(c, d, graph);
    LoadMakes(c, d, graph);
    SetLeaves(d.graph.nodes, LoadRemoves(d.graph, c.runner, All(d), graph), graph.nodes,
              RunnerNode(c.runner, graph.root, d.runs + d.finished), n);
  }

  lemma MainHolds(g: Graph, runner: Uuid, root: Option<Uuid>, runs: set<Run>)
    requires UniqueIds(g.nodes)
    ensures var edges := Children(ById(g.nodes)); var main := MainGraph(g, runner, root, runs);
            && main.root == root && UniqueIds(main.nodes)
            && forall n :: n in main.nodes <==>
                 n in g.nodes && n.id != runner && (n.id in Reach(edges, RootSet(root)) || n.id !in HeldBy(edges, runs))
  {
    hide Reach, HeldBy;
    KeptHolds(g.nodes, NotMain(Children(ById(g.nodes)), runner, root, runs));
    KeptUnique(g.nodes, NotMain(Children(ById(g.nodes)), runner, root, runs));
  }

  lemma LoadNowReplaces(c: Config, d: Device, graph: Graph)
    requires Stands(c, d) && LoadNow(c, d, graph).ok
    ensures var after := LoadNow(c, d, graph).device; var edges := Children(ById(after.graph.nodes));
            var held, under := HeldBy(edges, All(d)), Reach(edges, RootSet(graph.root));
            var main := MainOf(c, after);
            && main.root == graph.root && UniqueIds(main.nodes)
            && (forall n :: n in graph.nodes ==> (n in main.nodes <==> n.id in under || n.id !in held))
            && (forall n :: n in main.nodes ==> n in graph.nodes || (n.id in under && n.id in held))
  {
    hide Reach, LoadNow, Children, ById, HeldBy, MainGraph;
    LoadMakes(c, d, graph);
    LoadStands(c, d, graph);
    var after := LoadNow(c, d, graph).device;
    assert All(after) == All(d) && UniqueIds(after.graph.nodes);
    MainHolds(after.graph, c.runner, graph.root, All(d));
    forall n: Node | n.id != c.runner
      ensures (n in graph.nodes ==> n in after.graph.nodes)
              && (n in after.graph.nodes ==>
                    n in graph.nodes || n.id in HeldBy(Children(ById(after.graph.nodes)), All(d)))
    {
      LoadLeaves(c, d, graph, n);
    }
    forall n | n in graph.nodes ensures n.id != c.runner {
      assert n.id in IdsOf(graph.nodes);
    }
  }

  /**
   A load that succeeds takes the main behavior's place.  What a read answers is
   rooted where the loaded graph is; of the loaded nodes it has, as they were
   loaded, those that are under that root and those that no run holds; and any
   other node of it is one a run holds, under that root.
   */
  lemma LoadReplaces(c: Config, d: Device, graph: Graph)
    requires Stands(c, d) && LoadResult(c, d, graph).ok
    ensures var after := LoadResult(c, d, graph).device; var edges := Children(ById(after.graph.nodes));
            var held := Reach(edges, set run | run in d.runs :: run.decorator)
                        + set run, id | run in d.runs && id in run.detached :: id;
            var under := Reach(edges, if graph.root.Some? then {graph.root.value} else {});
            var main := MainOf(c, after);
            && main.root == graph.root && UniqueIds(main.nodes)
            && (forall n :: n in graph.nodes ==> (n in main.nodes <==> n.id in under || n.id !in held))
            && (forall n :: n in main.nodes ==> n in graph.nodes || (n.id in under && n.id in held))
  {
    hide Reach, LoadNow, Children, ById, MainOf, FinishedResult, UniqueIds;
    FinishedStands(c, d);
    FinishedLists(c, d);
    var f := FinishedResult(c, d).device;
    LoadNowReplaces(c, f, graph);
    RunsHold(f);
  }

  lemma RunsHold(d: Device)
    requires d.finished == []
    ensures forall edges :: HeldBy(edges, All(d)) == Reach(edges, set run | run in d.runs :: run.decorator)
                                                     + set run, id | run in d.runs && id in run.detached :: id
  {
    hide Reach;
    assert d.runs + d.finished == d.runs;
    assert DecoratorsOf(All(d)) == set run | run in d.runs :: run.decorator;
    assert DetachedOf(All(d)) == set run, id | run in d.runs && id in run.detached :: id;
  }

  /** Where no run holds a loaded node, or one under the loaded root, a read
      answers the loaded graph. */
  lemma LoadedIsRead(c: Config, d: Device, graph: Graph)
    requires Stands(c, d) && LoadResult(c, d, graph).ok
    requires var edges := Children(ById(LoadResult(c, d, graph).device.graph.nodes));
             var held := Reach(edges, set run | run in d.runs :: run.decorator)
                         + set run, id | run in d.runs && id in run.detached :: id;
             held !! Reach(edges, if graph.root.Some? then {graph.root.value} else {}) + IdsOf(graph.nodes)
    ensures var main := MainOf(c, LoadResult(c, d, graph).device);
            main.root == graph.root && UniqueIds(main.nodes) && SetOf(main.nodes) == SetOf(graph.nodes)
  {
    hide Reach, LoadResult, Children, ById, MainOf;
    LoadReplaces(c, d, graph);
    forall n | n in graph.nodes ensures n.id in IdsOf(graph.nodes) {
    }
  }

  /** With no run, it always does. */
  lemma LoadedAlone(c: Config, d: Device, graph: Graph)
    requires Stands(c, d) && LoadResult(c, d, graph).ok && d.runs == []
    ensures var main := MainOf(c, LoadResult(c, d, graph).device);
            main.root == graph.root && UniqueIds(main.nodes) && SetOf(main.nodes) == SetOf(graph.nodes)
  {
    hide Reach, LoadResult, Children, ById, MainOf;
    var edges := Children(ById(LoadResult(c, d, graph).device.graph.nodes));
    NothingReached(edges);
    assert (set run | run in d.runs :: run.decorator) == {};
    assert (set run, id | run in d.runs && id in run.detached :: id) == {};
    LoadedIsRead(c, d, graph);
  }

  lemma NothingReached(edges: Edges<Uuid>)
    ensures Reach(edges, {}) == {}
  {
    ReachIsLeast(edges, {}, {});
  }
}
