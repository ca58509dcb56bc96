/**
 Graphs spawned, and spawned again.

 A graph whose root is the program of a live run becomes that run's program;
 another is a run of its own, of nodes the device does not have.

 `SpawnStands` and `RespawnRevises` say of both what `Devices` says of the
 other operations, with the one case in which a read answers otherwise at the
 same revision: a graph that its run already runs, and that leaves out a
 detached node the run alone kept.
 */
module Spawning {
  import opened Integers
  import opened Digraphs
  import opened Graphs
  import opened GraphEdits
  import opened Scaffolds
  import opened Grafts
  import opened Decorators
  import opened Respawns
  import opened ScaffoldEdits
  import opened RespawnEdits
  import opened Devices

  // A graph spawned again.

  function Rest(d: Device, at: nat): seq<Run>
    requires at < |d.runs|
  {
    d.runs[..at] + d.runs[at + 1..] + d.finished
  }

  function WithDetached(run: Run, graph: Graph): Run
    requires graph.root.Some?
  {
    run.(detached := Parentless(graph.nodes, graph.root.value))
  }

  /** The live run `at` brought to run `graph`, by the diff from its own nodes. */
  ghost function RespawnResult(c: Config, d: Device, at: nat, graph: Graph, diff: GraphDiff): Result
    requires at < |d.runs| && graph.root.Some?
  {
    var runs := d.runs[at := WithDetached(d.runs[at], graph)];
    if !NamesItsOwn(d.graph, c.runner, d.mainRoot, d.runs[at], graph.nodes) then Result(d, false)
    else if diff == NO_CHANGE then Result(d.(runs := runs), true)
    else if !Accepted(c.runner, c.Lowers(d.functions), d.graph, diff, true) then Result(d, false)
    else Result(RevisedSince(c, Edited(d, diff).(runs := runs), MainOf(c, d)), true)
  }

  /** What a respawn finds: a run of the graph's root, and a diff to it. */
  ghost predicate Respawning(c: Config, d: Device, at: nat, graph: Graph, diff: GraphDiff) {
    && at < |d.runs| && graph.root.Some? && graph.root.value in IdsOf(graph.nodes)
    && IsTree(graph.nodes, graph.root.value, c.native)
    && ProgramRoot(d.graph, d.runs[at]) == graph.root
    && IsDiff(OwnGraph(d.graph, c.runner, d.mainRoot, d.runs[at], graph.root), graph, diff)
  }

  lemma RestAndOne(d: Device, at: nat, kept: Run)
    requires at < |d.runs|
    ensures All(d) == SetOf(Rest(d, at)) + {d.runs[at]}
    ensures All(d.(runs := d.runs[at := kept])) == SetOf(Rest(d, at)) + {kept}
    ensures kept.decorator == d.runs[at].decorator ==>
              DecoratorList(d.runs[at := kept] + d.finished) == DecoratorList(d.runs + d.finished)
    ensures Orderly(d) ==> d.runs[at].decorator !in DecoratorsOf(SetOf(Rest(d, at)))
  {
    OneTakenOut(d.runs, d.finished, at);
    var other := d.runs[at := kept];
    OneTakenOut(other, d.finished, at);
    assert other[..at] == d.runs[..at] && other[at + 1..] == d.runs[at + 1..];
    assert SetOf([kept]) == {kept} && SetOf([d.runs[at]]) == {d.runs[at]};
    assert d.runs[at].decorator in DecoratorsOf(SetOf([d.runs[at]]));
  }

  lemma RootIsHeld(g: Graph, run: Run, root: Uuid)
    requires UniqueIds(g.nodes) && ProgramRoot(g, run) == Some(root)
    ensures root in Next(Children(ById(g.nodes)), run.decorator)
  {
  }

  /** A graph the run already runs: a read answers the same exactly when the
      run abandons no node. */
  lemma RunningAlready(c: Config, d: Device, at: nat, graph: Graph, diff: GraphDiff)
    requires Stands(c, d) && Respawning(c, d, at, graph, diff) && diff == NO_CHANGE
    ensures var kept, rest := WithDetached(d.runs[at], graph), SetOf(Rest(d, at));
            MainOf(c, d.(runs := d.runs[at := kept])) == MainOf(c, d)
            <==> !Abandons(d.graph, c.runner, d.mainRoot, rest, d.runs[at], graph.nodes)
  {
    var run, rest, root := d.runs[at], SetOf(Rest(d, at)), graph.root.value;
    RestAndOne(d, at, WithDetached(run, graph));
    RootIsHeld(d.graph, run, root);
    OwnHolds(d.graph, c.runner, d.mainRoot, run, graph.root);
    NoChangeIsSame(OwnGraph(d.graph, c.runner, d.mainRoot, run, graph.root), graph, diff);
    AbandoningTells(d.graph, c.runner, d.mainRoot, rest, run, graph, root, c.native, Parentless(graph.nodes, root));
  }

  lemma RespawnedStands(c: Config, d: Device, at: nat, graph: Graph, diff: GraphDiff)
    requires Stands(c, d) && Respawning(c, d, at, graph, diff)
    ensures Stands(c, RespawnResult(c, d, at, graph, diff).device)
  {
    var run, kept, rest := d.runs[at], WithDetached(d.runs[at], graph), SetOf(Rest(d, at));
    RestAndOne(d, at, kept);
    if RespawnResult(c, d, at, graph, diff).ok {
      if diff == NO_CHANGE {
        KeptHangs(c, d, at, graph, diff);
      } else {
        var edited := Edited(d, diff).(runs := d.runs[at := kept]);
        RespawnHangs(d.graph, c.runner, d.mainRoot, rest, run, graph, diff, kept.detached, edited.graph);
        RevisedAlike(c, edited, MainOf(c, d));
      }
    }
  }

  lemma KeptHangs(c: Config, d: Device, at: nat, graph: Graph, diff: GraphDiff)
    requires Stands(c, d) && Respawning(c, d, at, graph, diff)
    requires NamesItsOwn(d.graph, c.runner, d.mainRoot, d.runs[at], graph.nodes)
    ensures Stands(c, d.(runs := d.runs[at := WithDetached(d.runs[at], graph)]))
  {
    var run, kept, rest := d.runs[at], WithDetached(d.runs[at], graph), SetOf(Rest(d, at));
    RestAndOne(d, at, kept);
    RunsGrow(rest, run);
    RunsGrow(rest, kept);
    RunnerIsNotHeld(d.graph, c.runner, d.mainRoot, All(d), run);
    assert c.runner !in IdsOf(graph.nodes);
  }

  /**
   The revision counts what a read answers, but for one case: a graph the run
   already runs, which leaves out a detached node the run alone kept.
   */
  lemma RespawnRevises(c: Config, d: Device, at: nat, graph: Graph, diff: GraphDiff)
    requires Stands(c, d) && Respawning(c, d, at, graph, diff)
    requires RespawnResult(c, d, at, graph, diff).ok
    ensures Revises(c, d, RespawnResult(c, d, at, graph, diff).device)
            <==> !(diff == NO_CHANGE
                   && Abandons(d.graph, c.runner, d.mainRoot, SetOf(Rest(d, at)), d.runs[at], graph.nodes))
  {
    if diff == NO_CHANGE {
      RunningAlready(c, d, at, graph, diff);
    } else {
      RevisingRevises(c, d, Edited(d, diff).(runs := d.runs[at := WithDetached(d.runs[at], graph)]));
    }
  }

  lemma RespawnGuarded(c: Config, d: Device, at: nat, graph: Graph, diff: GraphDiff)
    requires Stands(c, d) && Orderly(d) && Guarded(c, d) && Respawning(c, d, at, graph, diff)
    ensures Orderly(RespawnResult(c, d, at, graph, diff).device)
    ensures Guarded(c, RespawnResult(c, d, at, graph, diff).device)
  {
    RespawnOrderly(c, d, at, graph, diff);
    HungApart(c, d, at);
    if RespawnResult(c, d, at, graph, diff).ok {
      if diff == NO_CHANGE {
        KeptGuarded(c, d, at, graph);
      } else {
        ChangedGuarded(c, d, at, graph, diff);
      }
    }
  }

  lemma RespawnOrderly(c: Config, d: Device, at: nat, graph: Graph, diff: GraphDiff)
    requires Orderly(d) && at < |d.runs| && graph.root.Some?
    ensures Orderly(RespawnResult(c, d, at, graph, diff).device)
  {
    RestAndOne(d, at, WithDetached(d.runs[at], graph));
  }

  lemma HungApart(c: Config, d: Device, at: nat)
    requires Stands(c, d) && at < |d.runs|
    ensures UniqueIds(d.graph.nodes) && DecoratorsOf(All(d)) <= IdsOf(d.graph.nodes)
    ensures c.runner !in Reach(Children(ById(d.graph.nodes)), {d.runs[at].decorator})
  {
    assert d.runs[at] in All(d);
    RunnerIsNotHeld(d.graph, c.runner, d.mainRoot, All(d), d.runs[at]);
    DecoratorsAreNodes(d.graph, c.runner, d.mainRoot, All(d));
  }

  lemma KeptGuarded(c: Config, d: Device, at: nat, graph: Graph)
    requires UniqueIds(d.graph.nodes) && DecoratorsOf(All(d)) <= IdsOf(d.graph.nodes)
    requires Orderly(d) && Guarded(c, d) && at < |d.runs| && graph.root.Some?
    requires c.runner !in Reach(Children(ById(d.graph.nodes)), {d.runs[at].decorator})
    requires NamesItsOwn(d.graph, c.runner, d.mainRoot, d.runs[at], graph.nodes)
    ensures Guarded(c, d.(runs := d.runs[at := WithDetached(d.runs[at], graph)]))
  {
    var run, kept, rest := d.runs[at], WithDetached(d.runs[at], graph), SetOf(Rest(d, at));
    RestAndOne(d, at, kept);
    RunHoldsNoDecorator(d.graph, c.runner, d.mainRoot, rest, run);
    OwnIsHeld(c, d, at, graph);
    KeptScaffolded(d.graph, c.runner, d.mainRoot, rest, run, kept);
  }

  lemma KeptScaffolded(g: Graph, runner: Uuid, mainRoot: Option<Uuid>, rest: set<Run>, run: Run, kept: Run)
    requires Scaffolded(g, runner, mainRoot, rest + {run}) && kept.decorator == run.decorator
    requires kept.detached !! DecoratorsOf(rest + {run})
    ensures Scaffolded(g, runner, mainRoot, rest + {kept}) && DecoratorsOf(rest + {kept}) == DecoratorsOf(rest + {run})
  {
    RunsGrow(rest, run);
    RunsGrow(rest, kept);
  }

  lemma ChangedGuarded(c: Config, d: Device, at: nat, graph: Graph, diff: GraphDiff)
    requires UniqueIds(d.graph.nodes) && DecoratorsOf(All(d)) <= IdsOf(d.graph.nodes)
    requires Orderly(d) && Guarded(c, d) && Respawning(c, d, at, graph, diff)
    requires c.runner !in Reach(Children(ById(d.graph.nodes)), {d.runs[at].decorator})
    requires diff != NO_CHANGE && RespawnResult(c, d, at, graph, diff).ok
    ensures Guarded(c, RespawnResult(c, d, at, graph, diff).device)
  {
    var run, kept, rest := d.runs[at], WithDetached(d.runs[at], graph), SetOf(Rest(d, at));
    RestAndOne(d, at, kept);
    RunsGrow(rest, run);
    RunsGrow(rest, kept);
    var edited := Edited(d, diff).(runs := d.runs[at := kept]);
    TreeIsClosed(graph.nodes, graph.root.value, c.native);
    RespawnSpares(d.graph, c.runner, d.mainRoot, rest, run, graph, diff, kept.detached, edited.graph);
    RevisedAlike(c, edited, MainOf(c, d));
  }

  /** The detached nodes a graph names are no decorators. */
  lemma OwnIsHeld(c: Config, d: Device, at: nat, graph: Graph)
    requires DecoratorsOf(All(d)) <= IdsOf(d.graph.nodes) && at < |d.runs| && graph.root.Some?
    requires NamesItsOwn(d.graph, c.runner, d.mainRoot, d.runs[at], graph.nodes)
    requires RunHolds(d.graph, d.runs[at]) !! DecoratorsOf(All(d))
    ensures Parentless(graph.nodes, graph.root.value) !! DecoratorsOf(All(d))
  {
  }

  // A graph spawned.

  /** What a graph's bindings read, it holds. */
  predicate ReadsWithin(graph: Graph) {
    forall n :: n in graph.nodes ==> BindsWithin(n, IdsOf(graph.nodes))
  }

  predicate BindsWithin(n: Node, ids: set<Uuid>) {
    forall port :: port in n.bind && SourcePort(n.bind[port]).Some? ==> SourcePort(n.bind[port]).value.node in ids
  }

  /** A graph of its own region: a tree and calls beside it, of functions a
      tree may call, reading only among them. */
  ghost predicate Spawnable(c: Config, graph: Graph) {
    && graph.root.Some? && graph.root.value in IdsOf(graph.nodes) && IsTree(graph.nodes, graph.root.value, c.native)
    && (forall n :: n in graph.nodes ==> n.function_ !in c.interpreter)
    && ReadsWithin(graph) && c.builds(graph)
  }

  /** The first live run whose program's root `root` is. */
  function RunRooted(g: Graph, runs: seq<Run>, root: Uuid): (at: nat)
    ensures at <= |runs| && (at < |runs| ==> ProgramRoot(g, runs[at]) == Some(root))
    ensures forall i :: 0 <= i < at ==> ProgramRoot(g, runs[i]) != Some(root)
  {
    if runs == [] || ProgramRoot(g, runs[0]) == Some(root) then 0 else 1 + RunRooted(g, runs[1..], root)
  }

  function GraphFragment(graph: Graph, run: Run): seq<Node>
    requires graph.root.Some?
  {
    graph.nodes + [DecoratorNode(run.decorator, run.status, graph.root.value)]
  }

  /** Once finished runs are pruned: a run of the graph's root takes it, or
      its new nodes are grafted. */
  ghost predicate SpawnsNow(c: Config, d: Device, graph: Graph, run: Run, r: Result)
    requires graph.root.Some?
  {
    var at := RunRooted(d.graph, d.runs, graph.root.value);
    if at < |d.runs| then
      exists diff :: Respawning(c, d, at, graph, diff) && r == RespawnResult(c, d, at, graph, diff)
    else if IdsOf(graph.nodes) !! IdsOf(d.graph.nodes)
    then r == GraftResult(c, d, GraphFragment(graph, WithDetached(run, graph)), WithDetached(run, graph))
    else r == Result(d, false)
  }

  ghost predicate SpawnsGraph(c: Config, d: Device, graph: Graph, run: Run, r: Result) {
    var f := FinishedResult(c, d);
    if !Spawnable(c, graph) then r == Result(d, false)
    else if !f.ok then r == f
    else SpawnsNow(c, f.device, graph, run, r)
  }

  /** The one spawn a read may answer otherwise after at the same revision. */
  ghost predicate LetsGo(c: Config, d: Device, graph: Graph) {
    && graph.root.Some? && RunRooted(d.graph, d.runs, graph.root.value) < |d.runs|
    && var at := RunRooted(d.graph, d.runs, graph.root.value);
       && RunsAlready(d.graph, c.runner, d.mainRoot, d.runs[at], graph)
       && Abandons(d.graph, c.runner, d.mainRoot, SetOf(Rest(d, at)), d.runs[at], graph.nodes)
  }

  lemma GraphIsFragment(g: Graph, graph: Graph, run: Run, native: set<Uuid>)
    requires graph.root.Some? && graph.root.value in IdsOf(graph.nodes)
    requires IsTree(graph.nodes, graph.root.value, native) && IdsOf(graph.nodes) !! IdsOf(g.nodes)
    requires run.decorator !in IdsOf(graph.nodes) + IdsOf(g.nodes)
    ensures IsFragment(g, GraphFragment(graph, WithDetached(run, graph)), WithDetached(run, graph))
    ensures ClosedUnder(graph.nodes, IdsOf(graph.nodes))
  {
    var root := graph.root.value;
    TreeIsClosed(graph.nodes, root, native);
    TreeIsFragment(g, graph.nodes, root, native, DecoratorNode(run.decorator, run.status, root),
                   WithDetached(run, graph));
  }

  /** A spawned graph leaves what a read answers unless the revision advances,
      but for the one case. */
  lemma SpawnStands(c: Config, d: Device, graph: Graph, run: Run, r: Result)
    requires Stands(c, d) && Spawnable(c, graph) && SpawnsNow(c, d, graph, run, r)
    requires run.decorator !in IdsOf(graph.nodes) + IdsOf(d.graph.nodes)
    ensures Stands(c, r.device)
    ensures r.ok ==> (Revises(c, d, r.device) <==> !LetsGo(c, d, graph))
  {
    var at := RunRooted(d.graph, d.runs, graph.root.value);
    if at < |d.runs| {
      var diff :| Respawning(c, d, at, graph, diff) && r == RespawnResult(c, d, at, graph, diff);
      RespawnedStands(c, d, at, graph, diff);
      if r.ok {
        RespawnRevises(c, d, at, graph, diff);
        NothingToChange(c, d, at, graph, diff);
      }
    } else if IdsOf(graph.nodes) !! IdsOf(d.graph.nodes) {
      GraphIsFragment(d.graph, graph, run, c.native);
      GraftingStands(c, d, GraphFragment(graph, WithDetached(run, graph)), WithDetached(run, graph));
    }
  }

  /** A spawn never takes the revision back. */
  lemma SpawnAdvances(c: Config, d: Device, graph: Graph, run: Run, r: Result)
    requires graph.root.Some? && SpawnsNow(c, d, graph, run, r)
    ensures r.device.revision >= d.revision
  {
    hide Reach, MainGraph, Accepted, Restarted, Applied, NamesItsOwn, Parentless, Respawning;
    var at := RunRooted(d.graph, d.runs, graph.root.value);
    if at < |d.runs| {
      var diff :| Respawning(c, d, at, graph, diff) && r == RespawnResult(c, d, at, graph, diff);
    } else if IdsOf(graph.nodes) !! IdsOf(d.graph.nodes) {
      var kept := WithDetached(run, graph);
      assert GraftResult(c, d, GraphFragment(graph, kept), kept).device.revision == d.revision;
    }
  }

  lemma NothingToChange(c: Config, d: Device, at: nat, graph: Graph, diff: GraphDiff)
    requires UniqueIds(d.graph.nodes) && Respawning(c, d, at, graph, diff)
    ensures diff == NO_CHANGE <==> RunsAlready(d.graph, c.runner, d.mainRoot, d.runs[at], graph)
  {
    OwnHolds(d.graph, c.runner, d.mainRoot, d.runs[at], graph.root);
    NoChangeIsSame(OwnGraph(d.graph, c.runner, d.mainRoot, d.runs[at], graph.root), graph, diff);
  }

  lemma SpawnGuarded(c: Config, d: Device, graph: Graph, run: Run, r: Result)
    requires Stands(c, d) && Orderly(d) && Guarded(c, d) && Spawnable(c, graph) && SpawnsNow(c, d, graph, run, r)
    requires Untaken(d, run.decorator) && run.decorator !in IdsOf(graph.nodes)
    ensures Orderly(r.device) && Guarded(c, r.device)
  {
    var at := RunRooted(d.graph, d.runs, graph.root.value);
    if at < |d.runs| {
      var diff :| Respawning(c, d, at, graph, diff) && r == RespawnResult(c, d, at, graph, diff);
      RespawnGuarded(c, d, at, graph, diff);
    } else if IdsOf(graph.nodes) !! IdsOf(d.graph.nodes) {
      GraphIsFragment(d.graph, graph, run, c.native);
      ParentlessAreNodes(graph.nodes, graph.root.value);
      GraftingGuarded(c, d, graph.nodes, graph.root.value, WithDetached(run, graph));
    }
  }

  lemma ParentlessAreNodes(nodes: seq<Node>, root: Uuid)
    ensures Parentless(nodes, root) <= IdsOf(nodes)
  {
  }
}
