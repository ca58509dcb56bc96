/**
 The interpreter of behavior trees: one graph hosting the main behavior and
 the task runs, edited in place by each operation.
 */
module Interpreter {
  import opened Integers
  import opened Digraphs
  import opened Graphs
  import opened GraphEdits
  import opened Scaffolds
  import opened Grafts
  import opened Decorators
  import opened Respawns
  import opened ScaffoldEdits
  import opened RespawnEdits
  import opened Devices
  import opened Spawning
  import opened Ticking
  import opened Lifetimes
  import Loads

  // Walks of a graph.

  lemma HeldByNone(edges: Edges<Uuid>)
    ensures HeldBy(edges, {}) == {}
  {
    assert DecoratorsOf({}) == {} && DetachedOf({}) == {};
    ReachIsLeast(edges, {}, {});
  }

  lemma HeldByMore(edges: Edges<Uuid>, all: seq<Run>, i: nat)
    requires i < |all|
    ensures HeldBy(edges, SetOf(all[..i + 1]))
            == HeldBy(edges, SetOf(all[..i])) + Reach(edges, {all[i].decorator}) + all[i].detached
  {
    assert all[..i + 1] == all[..i] + [all[i]];
    assert SetOf(all[..i + 1]) == SetOf(all[..i]) + {all[i]};
    RunsGrow(SetOf(all[..i]), all[i]);
    ReachJoins(edges, DecoratorsOf(SetOf(all[..i])), {all[i].decorator});
  }

  /** The runs' nodes: each one's subtree and detached nodes. */
  method NodesOf(edges: Edges<Uuid>, all: seq<Run>) returns (nodes: set<Uuid>)
    ensures nodes == HeldBy(edges, SetOf(all))
  {
    nodes := {};
    HeldByNone(edges);
    assert SetOf(all[..0]) == {};
    for i := 0 to |all|
      invariant nodes == HeldBy(edges, SetOf(all[..i]))
    {
      var reached := FindReach(edges, [all[i].decorator]);
      HeldByMore(edges, all, i);
      assert (set x | x in [all[i].decorator]) == {all[i].decorator};
      nodes := nodes + reached + all[i].detached;
    }
    assert all[..|all|] == all;
  }

  method KeptOf(nodes: seq<Node>, out: set<Uuid>) returns (kept: seq<Node>)
    ensures kept == Kept(nodes, out)
  {
    kept := [];
    for i := 0 to |nodes|
      invariant kept == Kept(nodes[..i], out)
    {
      assert nodes[..i + 1][..i] == nodes[..i];
      if nodes[i].id !in out {
        kept := kept + [nodes[i]];
      }
    }
    assert nodes[..|nodes|] == nodes;
  }

  /** All that would stay if `leaving` left: what any other node leads to. */
  method HeldBeside(g: Graph, runner: Uuid, mainRoot: Option<Uuid>, leaving: set<Uuid>) returns (held: set<Uuid>)
    ensures held == HeldOutside(g, runner, mainRoot, leaving)
  {
    hide IdsOf, Reach, Children, ById;
    var starts: seq<Uuid> := [];
    NoIds();
    for i := 0 to |g.nodes|
      invariant SetOf(starts) == IdsOf(g.nodes[..i]) - {runner} - leaving
    {
      var id := g.nodes[i].id;
      assert g.nodes[..i + 1][..i] == g.nodes[..i];
      IdsSplit(g.nodes[..i + 1]);
      if id != runner && id !in leaving {
        SetOfMore(starts, id);
        starts := starts + [id];
      }
    }
    assert g.nodes[..|g.nodes|] == g.nodes;
    held := FindReach(Children(ById(g.nodes)), starts + RootList(mainRoot));
    assert (set x | x in starts + RootList(mainRoot)) == SetOf(starts) + RootSet(mainRoot);
  }

  lemma NoIds()
    ensures IdsOf([]) == {}
  {
  }

  /** The runner, and the runs' nodes the main behavior's tree does not hold. */
  method NotMainOf(g: Graph, runner: Uuid, mainRoot: Option<Uuid>, all: seq<Run>) returns (nodes: set<Uuid>)
    ensures nodes == NotMain(Children(ById(g.nodes)), runner, mainRoot, SetOf(all))
  {
    nodes := NodesOf(Children(ById(g.nodes)), all);
    var main := FindReach(Children(ById(g.nodes)), RootList(mainRoot));
    assert (set x | x in RootList(mainRoot)) == RootSet(mainRoot);
    nodes := nodes - main + {runner};
  }

  /** The main behavior, with `all` the runs. */
  method MainGraphOf(g: Graph, runner: Uuid, mainRoot: Option<Uuid>, all: seq<Run>) returns (main: Graph)
    ensures main == MainGraph(g, runner, mainRoot, SetOf(all))
  {
    var out := NotMainOf(g, runner, mainRoot, all);
    var nodes := KeptOf(g.nodes, out);
    main := Graph(mainRoot, nodes);
  }

  /** The ids of a set, in whatever order. */
  method Listed(s: set<Uuid>) returns (list: seq<Uuid>)
    ensures SetOf(list) == s
  {
    list := [];
    var left := s;
    while left != {}
      invariant SetOf(list) + left == s
      decreases |left|
    {
      var id :| id in left;
      SetOfMore(list, id);
      list, left := list + [id], left - {id};
    }
  }

  /** The order of removals means nothing. */
  lemma RemovalsAlike(d: Device, diff: GraphDiff, remove: seq<Uuid>)
    requires SetOf(remove) == SetOf(diff.remove)
    ensures Applied(d.graph, diff.(remove := remove)) == Applied(d.graph, diff)
    ensures Restarted(d.graph, diff.(remove := remove)) == Restarted(d.graph, diff)
  {
    assert ReboundAll(SetAll(Without(d.graph.nodes, SetOf(remove)), diff.set_), diff.(remove := remove))
           == ReboundAll(SetAll(Without(d.graph.nodes, SetOf(remove)), diff.set_), diff);
  }

  lemma EditedStands(g: Graph, diff: GraphDiff, runner: Uuid)
    requires UniqueIds(g.nodes) && Applied(g, diff).Some?
    requires runner in IdsOf(g.nodes) - SetOf(diff.remove) + IdsOf(diff.set_)
    ensures UniqueIds(Applied(g, diff).value.nodes) && runner in Children(ById(Applied(g, diff).value.nodes))
  {
    EditShape(g, diff);
    ByIdKeys(Applied(g, diff).value.nodes);
  }

  class BehaviorTreeInterpreter {
    const c: Config
    var graph: Graph
    var mainRoot: Option<Uuid>
    var runs: seq<Run>
    var finished: seq<Run>
    var dirty: bool
    var afresh: set<Uuid>
    var revision: nat
    var written: Option<nat>
    var latches: Option<Latches>
    var published: map<Uuid, Status>
    var functions: Functions
    /** The nodes of the lowered tree. */
    var lowered: set<Uuid>

    ghost function Now(): Device
      reads this
    {
      Device(graph, mainRoot, runs, finished, dirty, afresh, revision, written, latches, published, functions)
    }

    /** The interpreter as it starts: a runner over nothing. */
    constructor (c: Config)
      ensures this.c == c && Now() == Initial(c) && lowered == {}
    {
      this.c := c;
      graph := Graph(Some(c.runner), [RunnerNode(c.runner, None, [])]);
      mainRoot, runs, finished, dirty, afresh := None, [], [], true, {};
      revision, written, latches, published, functions, lowered := 0, None, None, map[], 0, {};
    }

    /** The main behavior and its revision. */
    method Read() returns (current: nat, main: Graph)
      ensures current == revision && main == MainOf(c, Now())
    {
      main := MainGraphOf(graph, c.runner, mainRoot, runs + finished);
      current := revision;
    }

    /** Counts one revision more if a read no longer answers `before`. */
    method ReviseSince(before: Graph)
      modifies this`revision
      ensures Now() == RevisedSince(c, old(Now()), before)
    {
      var main := MainGraphOf(graph, c.runner, mainRoot, runs + finished);
      if main != before {
        revision := revision + 1;
      }
    }

    /**
     An edit that is not accepted changes nothing.  One that is makes its graph
     the device's, has the nodes it names and those it unbinds start afresh,
     and calls for a lowering.
     */
    method Edit(diff: GraphDiff, detached: bool) returns (ok: bool)
      requires UniqueIds(graph.nodes) && c.runner in IdsOf(graph.nodes) - SetOf(diff.remove) + IdsOf(diff.set_)
      modifies this`graph, this`dirty, this`afresh
      ensures ok <==> Accepted(c.runner, c.Lowers(functions), old(graph), diff, detached)
      ensures Now() == if ok then Edited(old(Now()), diff) else old(Now())
    {
      hide Applied, AcyclicUnder, SelectsNoReturn, UniqueIds, Children, ById, ChangedBy, UnboundBy;
      var changed := ChangedBy(diff) + UnboundBy(graph, SetOf(diff.remove));
      var after := Applied(graph, diff);
      if after.None? {
        return false;
      }
      EditedStands(graph, diff, c.runner);
      var checked := CheckAcyclic(Children(ById(after.value.nodes)), c.runner);
      if checked.Refused? || !SelectsNoReturn(after.value) || !c.Lowers(functions)(after.value, detached) {
        return false;
      }
      graph, dirty, afresh := after.value, true, afresh + changed;
      ok := true;
    }

    /** Prunes runs already taken out of the lists, `all` with those left. */
    method Prune(gone: seq<Run>, ghost all: set<Run>) returns (ok: bool)
      requires UniqueIds(graph.nodes) && all == All(Now()) + SetOf(gone)
      modifies this`graph, this`dirty, this`afresh, this`revision
      ensures Result(Now(), ok) == PruneResult(c, old(Now()), gone, all)
    {
      hide Reach, AcyclicUnder, Applied, Restarted, SelectsNoReturn, UniqueIds, MainGraph;
      if gone == [] {
        return true;
      }
      var leaving := NodesOf(Children(ById(graph.nodes)), gone);
      var staying := HeldBeside(graph, c.runner, mainRoot, leaving);
      var remove := Listed(leaving - staying);
      ghost var d, pruned := Now(), leaving - staying;
      assert pruned == Pruned(graph, c.runner, mainRoot, SetOf(gone));
      var before := MainGraphOf(graph, c.runner, mainRoot, runs + finished + gone);
      assert SetOf(runs + finished + gone) == all;
      var diff := GraphDiff(remove, [RunnerNode(c.runner, mainRoot, runs + finished)], [], [], None);
      RemovalsAlike(d, PruneDiff(c, d, ListOf(pruned)), remove);
      ok := PruneBy(diff, before);
    }

    /** An edit, and the revision advanced when the main behavior is not
        `before` after it. */
    method PruneBy(diff: GraphDiff, before: Graph) returns (ok: bool)
      requires UniqueIds(graph.nodes) && c.runner in IdsOf(diff.set_)
      modifies this`graph, this`dirty, this`afresh, this`revision
      ensures ok <==> Accepted(c.runner, c.Lowers(functions), old(graph), diff, false)
      ensures Now() == if ok then RevisedSince(c, Edited(old(Now()), diff), before) else old(Now())
    {
      ok := Edit(diff, false);
      if ok {
        ReviseSince(before);
      }
    }

    /** Prunes the runs that finished since the last change. */
    method PruneFinished() returns (ok: bool)
      requires UniqueIds(graph.nodes)
      modifies this`graph, this`dirty, this`afresh, this`revision, this`finished
      ensures Result(Now(), ok) == FinishedResult(c, old(Now()))
    {
      ghost var all := All(Now());
      var gone := finished;
      finished := [];
      TakenOut(runs, gone);
      ok := Prune(gone, all);
    }

    /** An edit with another main root, which a refused one leaves as it was. */
    method EditOnto(edit: GraphDiff, root: Option<Uuid>) returns (ok: bool)
      requires UniqueIds(graph.nodes) && c.runner in IdsOf(edit.set_)
      modifies this`graph, this`dirty, this`afresh, this`mainRoot
      ensures ok <==> Accepted(c.runner, c.Lowers(functions), old(graph), edit, false)
      ensures Now() == if ok then Edited(old(Now()), edit).(mainRoot := root) else old(Now())
    {
      var previous := mainRoot;
      mainRoot := root;
      ok := Edit(edit, false);
      if !ok {
        mainRoot := previous;
      }
    }

    /** An editor's edit, once the finished runs are pruned. */
    method ApplyOnto(diff: GraphDiff) returns (ok: bool)
      requires UniqueIds(graph.nodes)
      modifies this`graph, this`dirty, this`afresh, this`mainRoot, this`revision
      ensures Result(Now(), ok) == ApplyNow(c, old(Now()), diff)
    {
      if Refuses(graph, c.runner, SetOf(runs + finished), diff) {
        return false;
      }
      var before := MainGraphOf(graph, c.runner, mainRoot, runs + finished);
      var root := NewMainRoot(mainRoot, diff);
      var edit := OntoScaffold(diff, c.runner, root, runs + finished);
      assert RunnerNode(c.runner, root, runs + finished) in edit.set_;
      ok := EditOnto(edit, root);
      if ok {
        ReviseSince(before);
      }
    }

    /** An editor's edit: what a read answers is another graph only at another
        revision. */
    method Apply(diff: GraphDiff) returns (ok: bool)
      requires Stands(c, Now())
      modifies this
      ensures Result(Now(), ok) == ApplyResult(c, old(Now()), diff)
      ensures Stands(c, Now()) && (ok ==> Revises(c, old(Now()), Now()))
    {
      ghost var d := Now();
      FinishedStands(c, d);
      ok := PruneFinished();
      if ok {
        ApplyStands(c, Now(), diff);
        ok := ApplyOnto(diff);
      }
    }

    /** Whether a graph may be loaded. */
    method MayLoad(loaded: Graph) returns (may: bool)
      ensures may <==> Loadable(c, Now(), loaded)
    {
      IdsCount(loaded.nodes);
      ByIdKeys(loaded.nodes);
      assert |ById(loaded.nodes)| == |ById(loaded.nodes).Keys|;
      if |ById(loaded.nodes)| != |loaded.nodes| {
        return false;
      }
      var notMain := NotMainOf(graph, c.runner, mainRoot, runs + finished);
      may := IdsOf(loaded.nodes) * notMain == {};
    }

    /** What leaves with the previous main behavior: what the runs do not hold
        once the new nodes are set. */
    method LoadRemoval(loaded: Graph) returns (remove: seq<Uuid>)
      ensures SetOf(remove) == LoadRemoves(graph, c.runner, All(Now()), loaded)
    {
      var held := NodesOf(Children(ById(SetAll(graph.nodes, loaded.nodes))), runs + finished);
      remove := Listed(IdsOf(graph.nodes) - {c.runner} - held);
    }

    /** A whole main behavior, once the finished runs are pruned. */
    method LoadOnto(loaded: Graph) returns (ok: bool)
      requires UniqueIds(graph.nodes)
      modifies this`graph, this`dirty, this`afresh, this`mainRoot, this`revision
      ensures Result(Now(), ok) == LoadNow(c, old(Now()), loaded)
    {
      hide Applied, Restarted, Reach, AcyclicUnder, SelectsNoReturn, Loadable;
      ok := MayLoad(loaded);
      if !ok {
        return;
      }
      var remove := LoadRemoval(loaded);
      var rn := RunnerNode(c.runner, loaded.root, runs + finished);
      var diff := GraphDiff(remove, loaded.nodes + [rn], [], [], None);
      ghost var d := Now();
      RemovalsAlike(d, LoadDiff(c, d, loaded, ListOf(LoadRemoves(graph, c.runner, All(d), loaded))), remove);
      assert rn in diff.set_;
      ok := EditOnto(diff, loaded.root);
      if ok {
        revision := revision + 1;
      }
    }

    /** A whole main behavior replaces the previous one. */
    method Load(loaded: Graph) returns (ok: bool)
      requires Stands(c, Now())
      modifies this
      ensures Result(Now(), ok) == LoadResult(c, old(Now()), loaded)
      ensures Stands(c, Now()) && (ok ==> revision > old(revision))
      ensures ok && old(runs) == [] ==>
                MainOf(c, Now()).root == loaded.root && SetOf(MainOf(c, Now()).nodes) == SetOf(loaded.nodes)
    {
      hide LoadResult, FinishedResult, LoadNow;
      ghost var d := Now();
      FinishedStands(c, d);
      FinishedLists(c, d);
      if LoadResult(c, d, loaded).ok && runs == [] {
        Loads.LoadedAlone(c, d, loaded);
      }
      ok := LoadOnce(loaded);
    }

    method LoadOnce(loaded: Graph) returns (ok: bool)
      requires Stands(c, Now())
      modifies this
      ensures Result(Now(), ok) == LoadResult(c, old(Now()), loaded)
      ensures Stands(c, Now()) && (ok ==> revision > old(revision))
    {
      ghost var d := Now();
      FinishedStands(c, d);
      FinishedLists(c, d);
      ok := PruneFinished();
      if ok {
        LoadStands(c, Now(), loaded);
        ok := LoadOnto(loaded);
      }
    }

    // Runs.

    /** A run's nodes leave at once; halting no live run is fine. */
    method Halt(task: Uuid) returns (ok: bool)
      requires Stands(c, Now())
      modifies this`graph, this`dirty, this`afresh, this`revision, this`runs
      ensures Result(Now(), ok) == HaltResult(c, old(Now()), task)
      ensures Stands(c, Now()) && (ok ==> Revises(c, old(Now()), Now()))
    {
      HaltStands(c, Now(), task);
      ok := HaltRun(task);
    }

    method HaltRun(task: Uuid) returns (ok: bool)
      requires UniqueIds(graph.nodes)
      modifies this`graph, this`dirty, this`afresh, this`revision, this`runs
      ensures Result(Now(), ok) == HaltResult(c, old(Now()), task)
    {
      ghost var d := Now();
      var at := Position(runs, task);
      if at == |runs| {
        return true;
      }
      var gone := [runs[at]];
      OneTakenOut(runs, finished, at);
      runs := runs[..at] + runs[at + 1..];
      ok := Prune(gone, All(d));
    }

    /** A run's fragment under the runner; refused, the run is not listed. */
    method Graft(fragment: seq<Node>, run: Run) returns (ok: bool)
      requires UniqueIds(graph.nodes)
      modifies this`graph, this`dirty, this`afresh, this`runs
      ensures Result(Now(), ok) == GraftResult(c, old(Now()), fragment, run)
    {
      var before := runs;
      runs := runs + [run];
      var rn := RunnerNode(c.runner, mainRoot, runs + finished);
      var diff := GraphDiff([], fragment + [rn], [], [], None);
      assert rn in diff.set_;
      ok := Edit(diff, true);
      if !ok {
        runs := before;
      }
    }

    /** A call spawned: one leaf that carries it, under a decorator. */
    method Spawn(call: Value, run: Run, id: Uuid) returns (ok: bool)
      requires Stands(c, Now()) && run.detached == {}
      requires Untaken(Now(), run.decorator) && id !in IdsOf(graph.nodes) && id != run.decorator
      modifies this
      ensures Result(Now(), ok) == SpawnResult(c, old(Now()), run, id, call)
      ensures Stands(c, Now()) && (ok ==> Revises(c, old(Now()), Now()))
    {
      ghost var d := Now();
      CallStands(c, d, run, id, call);
      FinishedStands(c, d);
      ok := PruneFinished();
      if ok {
        ok := Graft(CallFragment(run, id, call), run);
      }
    }

    /** The nodes only the run at `at` holds, and whether `program` names only
        those and new ones. */
    method OwnOf(at: nat, program: Graph) returns (may: bool, own: Graph)
      requires at < |runs|
      ensures own == OwnGraph(graph, c.runner, mainRoot, runs[at], program.root)
      ensures may <==> NamesItsOwn(graph, c.runner, mainRoot, runs[at], program.nodes)
    {
      var run, ids := runs[at], IdsOf(graph.nodes);
      var held := NodesOf(Children(ById(graph.nodes)), [run]);
      assert SetOf([run]) == {run};
      held := held - {run.decorator};
      var staying := HeldBeside(graph, c.runner, mainRoot, held + {run.decorator});
      var kept := KeptOf(graph.nodes, ids - (held - staying));
      own := Graph(program.root, kept);
      may := forall n :: n in program.nodes ==> (n.id in ids ==> n.id in held) && n.id !in staying;
    }

    /** Brings a live run to run `program`: only what differs changes. */
    method Respawn(at: nat, program: Graph) returns (ok: bool, ghost diff: GraphDiff)
      requires UniqueIds(graph.nodes) && c.runner in IdsOf(graph.nodes)
      requires at < |runs| && program.root.Some? && program.root.value in IdsOf(program.nodes)
      requires IsTree(program.nodes, program.root.value, c.native) && ProgramRoot(graph, runs[at]) == program.root
      requires c.runner !in RunHolds(graph, runs[at])
      modifies this`graph, this`dirty, this`afresh, this`revision, this`runs
      ensures Respawning(c, old(Now()), at, program, diff)
      ensures Result(Now(), ok) == RespawnResult(c, old(Now()), at, program, diff)
    {
      hide Reach, Applied, Restarted, Accepted, NamesItsOwn, WithDetached, Children, OwnGraph, IsDiff, ById, RunHolds;
      var may, own := OwnOf(at, program);
      OwnHolds(graph, c.runner, mainRoot, runs[at], program.root);
      var change := Diff(own, program);
      diff := change;
      if !may {
        return false, diff;
      }
      var kept := WithDetached(runs[at], program);
      ok := true;
      if change != NO_CHANGE {
        DiffNames(own, program, change);
        assert c.runner !in SetOf(change.remove);
        var before := MainGraphOf(graph, c.runner, mainRoot, runs + finished);
        ok := Edit(change, true);
        if ok {
          runs := runs[at := kept];
          ReviseSince(before);
        }
      } else {
        runs := runs[at := kept];
      }
    }

    /** Whether a graph may be spawned: one tree and calls beside it, of
        functions a tree calls, reading only among them, and lowering. */
    method MaySpawn(program: Graph) returns (may: bool)
      ensures may <==> Spawnable(c, program)
    {
      if program.root.None? || program.root.value !in IdsOf(program.nodes) {
        return false;
      }
      var checked := CheckTree(program.nodes, program.root.value, c.native);
      may := checked.Tree? && (forall n :: n in program.nodes ==> n.function_ !in c.interpreter)
             && ReadsWithin(program) && c.builds(program);
    }

    /** Once the finished runs are pruned: the run of the graph's root takes it
        as its program, or its new nodes are grafted. */
    method SpawnOnto(program: Graph, run: Run) returns (ok: bool)
      requires Spawnable(c, program) && UniqueIds(graph.nodes) && c.runner in IdsOf(graph.nodes)
      requires forall run :: run in runs ==> c.runner !in RunHolds(graph, run)
      modifies this`graph, this`dirty, this`afresh, this`revision, this`runs
      ensures SpawnsNow(c, old(Now()), program, run, Result(Now(), ok))
    {
      ghost var d := Now();
      var at := Rooted(graph, runs, program.root.value);
      if at < |runs| {
        ghost var diff;
        ok, diff := Respawn(at, program);
        SpawnedAgain(c, d, at, program, run, diff);
      } else {
        var kept := WithDetached(run, program);
        ok := IdsOf(program.nodes) * IdsOf(graph.nodes) == {};
        if ok {
          ok := Graft(GraphFragment(program, kept), kept);
        }
        SpawnedAnew(c, d, program, run);
      }
    }

    /** A graph spawned: a run of its own, or its run's program from now on. */
    method SpawnGraph(program: Graph, run: Run) returns (ok: bool)
      requires Stands(c, Now()) && Untaken(Now(), run.decorator) && run.decorator !in IdsOf(program.nodes)
      modifies this
      ensures SpawnsGraph(c, old(Now()), program, run, Result(Now(), ok)) && Stands(c, Now())
      ensures ok ==> (Revises(c, old(Now()), Now()) <==> !LosesNode(c, old(Now()), program))
    {
      ghost var d := Now();
      FinishedStands(c, d);
      ok := MaySpawn(program);
      if ok {
        ok := PruneFinished();
        if ok {
          RunnerIsInNone(c, Now());
          ok := SpawnOnto(program, run);
        }
      }
      GraphStands(c, d, program, run, Result(Now(), ok));
    }

    // Ticks.

    /** Lowers the graph when it changed: the new tree takes over the latches
        of the nodes that do not start afresh.  Those that do, and that both
        trees have, are the restarted ones, the runner aside. */
    method Lower(m: Meets) returns (ok: bool, restarted: set<Uuid>)
      requires UniqueIds(graph.nodes)
      modifies this
      ensures Result(Now(), ok) == LoweredResult(c, old(Now()), m)
      ensures var f, relowers := FinishedResult(c, old(Now())), Relowers(c, old(Now()), m);
              && lowered == (if relowers then IdsOf(graph.nodes) else old(lowered))
              && restarted == (if relowers then f.device.afresh * old(lowered) * lowered - {c.runner} else {})
    {
      hide FinishedResult, Carried, IdsOf;
      restarted := {};
      if !dirty {
        return true, {};
      }
      ok := PruneFinished();
      if !ok || !m.lowers {
        return false, {};
      }
      restarted := Replace(m.functions);
      if written != Some(revision) {
        if !m.revisionRewritten {
          return false, restarted;
        }
        written := Some(revision);
      }
    }

    /** Replaces the lowered tree by the graph's. */
    method Replace(functions: Functions) returns (restarted: set<Uuid>)
      modifies this`latches, this`afresh, this`dirty, this`functions, this`lowered
      ensures Now() == Lowering(old(Now()), functions) && lowered == IdsOf(graph.nodes)
      ensures restarted == old(afresh) * old(lowered) * lowered - {c.runner}
    {
      restarted := afresh * lowered * IdsOf(graph.nodes) - {c.runner};
      lowered := IdsOf(graph.nodes);
      latches := Some(CarriedBy(latches, DecoratorsOf(SetOf(runs + finished)), afresh));
      afresh, dirty, this.functions := {}, false, functions;
    }

    /** Moves the live runs whose status is terminal to the finished ones. */
    method Sweep()
      modifies this`runs, this`finished, this`dirty
      ensures Now() == Swept(old(Now())) && Sweeps(old(runs), old(finished), old(dirty), Now())
    {
      SweptSweeps(Now());
      var live, ended := Partition(published, runs, Now());
      runs, finished, dirty := live, finished + ended, dirty || ended != [];
    }

    /** Ticks the lowered tree: each decorator reached, and not latched, ticks
        its program and mirrors its status. */
    method TickTree(m: Meets)
      modifies this`latches, this`published
      ensures Now() == TickedTree(old(Now()), m)
    {
      if latches.Some? {
        published := PublishedAfter(published, latches.value, m);
        latches := Some(LatchesAfter(latches.value, m));
      }
    }

    /** One tick: what was halted and the revision are written, the graph
        lowered if it changed, the tree ticked, the runs that ended swept. */
    method Tick(m: Meets) returns (ok: bool)
      requires Stands(c, Now())
      modifies this
      ensures Result(Now(), ok) == TickResult(c, old(Now()), m)
      ensures Stands(c, Now()) && (ok ==> Revises(c, old(Now()), Now()))
      ensures ok ==>
                written == Some(revision) && Sweeps(old(runs), if old(dirty) then [] else old(finished), false, Now())
    {
      hide TickResult, Sweeps;
      TickStands(c, Now(), m);
      TickWrites(c, Now(), m);
      if TickResult(c, Now(), m).ok {
        TickSweeps(c, Now(), m);
      }
      ok := TickOnce(m);
    }

    method TickOnce(m: Meets) returns (ok: bool)
      requires UniqueIds(graph.nodes)
      modifies this
      ensures Result(Now(), ok) == TickResult(c, old(Now()), m)
    {
      if !m.haltsWritten {
        return false;
      }
      if written != Some(revision) {
        if !m.revisionWritten {
          return false;
        }
        written := Some(revision);
      }
      var restarted;
      ok, restarted := Lower(m);
      if !ok {
        return;
      }
      TickTree(m);
      if !m.ticks {
        return false;
      }
      Sweep();
      ok := m.reports;
    }
  }

  /** A tick that succeeds has written the revision. */
  lemma TickWrites(c: Config, d: Device, m: Meets)
    ensures var r := TickResult(c, d, m); r.ok ==> r.device.written == Some(r.device.revision)
  {
    FinishedLists(c, Written(d));
  }

  /** The runs whose status is not terminal, and those whose status is. */
  method Partition(published: map<Uuid, Status>, runs: seq<Run>, ghost d: Device)
    returns (live: seq<Run>, ended: seq<Run>)
    requires published == d.published
    ensures live == WhichEnded(d, runs, false) && ended == WhichEnded(d, runs, true)
  {
    live, ended := [], [];
    for i := 0 to |runs|
      invariant live + WhichEnded(d, runs[i..], false) == WhichEnded(d, runs, false)
      invariant ended + WhichEnded(d, runs[i..], true) == WhichEnded(d, runs, true)
    {
      var run := runs[i];
      assert runs[i..][0] == run && runs[i..][1..] == runs[i + 1..];
      if run.decorator in published && published[run.decorator] != Running {
        ended := ended + [run];
      } else {
        live := live + [run];
      }
    }
  }

  lemma SpawnedAgain(c: Config, d: Device, at: nat, program: Graph, run: Run, diff: GraphDiff)
    requires program.root.Some? && at == RunRooted(d.graph, d.runs, program.root.value) < |d.runs|
    requires Respawning(c, d, at, program, diff)
    ensures SpawnsNow(c, d, program, run, RespawnResult(c, d, at, program, diff))
  {
  }

  lemma SpawnedAnew(c: Config, d: Device, program: Graph, run: Run)
    requires program.root.Some? && RunRooted(d.graph, d.runs, program.root.value) == |d.runs|
    ensures var kept := WithDetached(run, program);
            SpawnsNow(c, d, program, run, if IdsOf(program.nodes) * IdsOf(d.graph.nodes) == {}
                                          then GraftResult(c, d, GraphFragment(program, kept), kept)
                                          else Result(d, false))
  {
    DisjointIsEmpty(IdsOf(program.nodes), IdsOf(d.graph.nodes));
  }

  lemma DisjointIsEmpty<T>(a: set<T>, b: set<T>)
    ensures a !! b <==> a * b == {}
  {
    assert forall x :: x in a && x in b ==> x in a * b;
  }

  lemma RunnerIsInNone(c: Config, d: Device)
    requires Stands(c, d)
    ensures forall run :: run in d.runs ==> c.runner !in RunHolds(d.graph, run)
  {
    forall run | run in d.runs ensures c.runner !in RunHolds(d.graph, run) {
      assert run in All(d);
      RunnerIsNotHeld(d.graph, c.runner, d.mainRoot, All(d), run);
    }
  }

  /** The first run whose program's root `root` is. */
  method Rooted(g: Graph, runs: seq<Run>, root: Uuid) returns (at: nat)
    ensures at == RunRooted(g, runs, root)
  {
    at := 0;
    while at < |runs| && ProgramRoot(g, runs[at]) != Some(root)
      invariant at <= |runs| && RunRooted(g, runs, root) == at + RunRooted(g, runs[at..], root)
    {
      assert runs[at..][1..] == runs[at + 1..];
      at := at + 1;
    }
  }

  method Position(runs: seq<Run>, task: Uuid) returns (at: nat)
    ensures at == RunOf(runs, task) <= |runs|
  {
    at := 0;
    while at < |runs| && runs[at].task != task
      invariant at <= |runs| && RunOf(runs, task) == at + RunOf(runs[at..], task)
    {
      at := at + 1;
    }
  }
}
