/**
 What each operation that succeeds leaves: the lists of runs, the nodes of the
 graph and their ports, and what a read then answers.
 */
module Operations {
  import opened Integers
  import opened Digraphs
  import opened Graphs
  import opened GraphEdits
  import opened Scaffolds
  import opened Grafts
  import opened Decorators
  import opened Respawns
  import opened ScaffoldEdits
  import opened RespawnEdits
  import opened Devices
  import opened Spawning
  import opened Edits
  import Loads

  /** What leads from the main root. */
  ghost function UnderMain(d: Device): set<Uuid> {
    Reach(Children(ById(d.graph.nodes)), if d.mainRoot.Some? then {d.mainRoot.value} else {})
  }

  /** What leads from the runs' decorators, and their detached nodes. */
  ghost function HeldByRuns(d: Device): set<Uuid> {
    Reach(Children(ById(d.graph.nodes)), set run | run in d.runs + d.finished :: run.decorator)
    + set run, id | run in d.runs + d.finished && id in run.detached :: id
  }

  /** A read answers, under the main root, every node that is not the runner's
      and that a run does not hold, unless the main root leads to it as well. */
  lemma ReadAnswers(c: Config, d: Device)
    requires Stands(c, d)
    ensures var main := MainOf(c, d);
            && main.root == d.mainRoot && UniqueIds(main.nodes)
            && forall n :: n in main.nodes <==>
                 n in d.graph.nodes && n.id != c.runner && (n.id in UnderMain(d) || n.id !in HeldByRuns(d))
  {
    hide Reach, Children, ById;
    Loads.MainHolds(d.graph, c.runner, d.mainRoot, All(d));
    assert DecoratorsOf(All(d)) == set run | run in d.runs + d.finished :: run.decorator;
    assert DetachedOf(All(d)) == set run, id | run in d.runs + d.finished && id in run.detached :: id;
  }

  // An editor's edit.

  /** The runner stands over the main root and the runs, in order. */
  ghost predicate RunnerOver(g: Graph, runner: Uuid, mainRoot: Option<Uuid>, runs: seq<Run>) {
    exists n :: n in g.nodes && n.id == runner
                && n.children == Some((if mainRoot.Some? then [mainRoot.value] else [])
                                      + seq(|runs|, i requires 0 <= i < |runs| => runs[i].decorator))
  }

  lemma GivenWithoutLast(g: Graph, removed: set<Uuid>, edit: GraphDiff, diff: GraphDiff, rn: Node, n: Node)
    requires Given(g, removed, edit, n) && n.id != rn.id
    requires edit.set_ == diff.set_ + [rn] && edit.bind == diff.bind && edit.unbind == diff.unbind
    ensures Given(g, removed, diff, n)
  {
    var base :| ComesFrom(g, removed, edit.set_, base) && PortsOf(edit, base, n)
                && n.id == base.id && n.function_ == base.function_ && n.children == base.children;
    assert edit.set_[..|edit.set_| - 1] == diff.set_;
    IdsSplit(edit.set_);
    if base.id in IdsOf(edit.set_) {
      var i: nat :| LastOfId(edit.set_, i, base.id) && edit.set_[i] == base;
      assert LastOfId(diff.set_, i, base.id) && diff.set_[i] == base;
    }
    assert ComesFrom(g, removed, diff.set_, base);
    assert PortsOf(diff, base, n);
  }

  lemma OntoGives(g: Graph, runner: Uuid, root: Option<Uuid>, runs: seq<Run>, diff: GraphDiff, after: Graph)
    requires UniqueIds(g.nodes) && Applied(g, OntoScaffold(diff, runner, root, runs)) == Some(after)
    ensures var removed := set id | id in diff.remove && id != runner;
            && UniqueIds(after.nodes)
            && IdsOf(after.nodes) == IdsOf(g.nodes) - removed + IdsOf(diff.set_) + {runner}
            && (forall n :: n in after.nodes && n.id != runner ==> Given(g, removed, diff, n))
            && RunnerOver(after, runner, root, runs)
  {
    hide Applied, Given, UniqueIds;
    var edit, rn := OntoScaffold(diff, runner, root, runs), RunnerNode(runner, root, runs);
    var removed := set id | id in diff.remove && id != runner;
    OnlyHolds(diff.remove, SetOf(diff.remove) - {runner});
    SetOfHas(edit.remove);
    assert removed == set id | id in edit.remove;
    EditGives(g, edit);
    IdsSplit(edit.set_);
    assert edit.set_[..|edit.set_| - 1] == diff.set_;
    forall n | n in after.nodes && n.id != runner ensures Given(g, removed, diff, n) {
      GivenWithoutLast(g, removed, edit, diff, rn, n);
    }
    var n := LastSetStands(g, edit, diff.set_, rn);
    assert DecoratorList(runs) == seq(|runs|, i requires 0 <= i < |runs| => runs[i].decorator);
  }

  lemma ApplyNowDoes(c: Config, d: Device, diff: GraphDiff)
    requires Stands(c, d) && ApplyNow(c, d, diff).ok
    ensures var after, removed := ApplyNow(c, d, diff).device, (set id | id in diff.remove && id != c.runner);
            && after.runs == d.runs && after.finished == d.finished
            && after.mainRoot == (if diff.root.Some? then diff.root
                                  else if d.mainRoot.Some? && d.mainRoot.value in diff.remove then None
                                  else d.mainRoot)
            && UniqueIds(after.graph.nodes)
            && IdsOf(after.graph.nodes) == IdsOf(d.graph.nodes) - removed + IdsOf(diff.set_) + {c.runner}
            && (forall n :: n in after.graph.nodes && n.id != c.runner ==> Given(d.graph, removed, diff, n))
            && RunnerOver(after.graph, c.runner, after.mainRoot, after.runs + after.finished)
  {
    hide Reach, AcyclicUnder, Applied, Restarted, Refuses, MainGraph, Given, UniqueIds, OntoScaffold, RunnerOver, IdsOf;
    HangsUnique(c, d);
    OntoGives(d.graph, c.runner, NewMainRoot(d.mainRoot, diff), d.runs + d.finished, diff,
              ApplyNow(c, d, diff).device.graph);
  }

  /**
   An edit that succeeds: the runs stay; the main root is the edit's, or the one
   there was unless it was removed; and the nodes are those there were, once the
   finished runs are pruned, but for those removed, with those set, each with its
   ports as the edit gives them.
   */
  lemma ApplyDoes(c: Config, d: Device, diff: GraphDiff)
    requires Stands(c, d) && ApplyResult(c, d, diff).ok
    ensures var before, after := FinishedResult(c, d).device, ApplyResult(c, d, diff).device;
            var removed := set id | id in diff.remove && id != c.runner;
            && after.runs == d.runs && after.finished == []
            && after.mainRoot == (if diff.root.Some? then diff.root
                                  else if d.mainRoot.Some? && d.mainRoot.value in diff.remove then None
                                  else d.mainRoot)
            && UniqueIds(after.graph.nodes)
            && IdsOf(after.graph.nodes) == IdsOf(before.graph.nodes) - removed + IdsOf(diff.set_) + {c.runner}
            && (forall n :: n in after.graph.nodes && n.id != c.runner ==> Given(before.graph, removed, diff, n))
            && RunnerOver(after.graph, c.runner, after.mainRoot, after.runs)
  {
    hide ApplyNow, FinishedResult, Given, UniqueIds, RunnerOver, IdsOf, Stands;
    FinishedStands(c, d);
    FinishedLists(c, d);
    ApplyNowDoes(c, FinishedResult(c, d).device, diff);
    assert ApplyResult(c, d, diff).device.runs + [] == ApplyResult(c, d, diff).device.runs;
  }

  /** The edit sets the node, or binds or unbinds a port of it. */
  predicate Changes(diff: GraphDiff, id: Uuid) {
    || (exists s :: s in diff.set_ && s.id == id)
    || (exists p :: p in diff.unbind && p.node == id)
    || (exists b :: b in diff.bind && b.node == id)
  }

  /** The node is left and reads one that is removed. */
  predicate LosesBinding(g: Graph, removed: set<Uuid>, id: Uuid) {
    exists n, port :: n in g.nodes && n.id == id && id !in removed && port in n.bind && ReadsAny(n.bind[port], removed)
  }

  lemma RestartsTell(g: Graph, diff: GraphDiff, id: Uuid)
    ensures id in Restarted(g, diff) <==> Changes(diff, id) || LosesBinding(g, SetOf(diff.remove), id)
  {
    assert id in ChangedBy(diff) <==> Changes(diff, id);
    if n, port :| n in g.nodes && n.id == id && id !in SetOf(diff.remove) && port in n.bind
                  && ReadsAny(n.bind[port], SetOf(diff.remove))
    {
      assert id in UnboundBy(g, SetOf(diff.remove));
    }
  }

  /** What an edit that succeeds starts afresh at the next lowering: the runner,
      what it changes, and what loses a binding by it. */
  lemma ApplyRestarts(c: Config, d: Device, diff: GraphDiff, id: Uuid)
    requires ApplyNow(c, d, diff).ok
    ensures var removed := set id | id in diff.remove && id != c.runner;
            id in ApplyNow(c, d, diff).device.afresh
            <==> id in d.afresh || id == c.runner || Changes(diff, id) || LosesBinding(d.graph, removed, id)
    ensures ApplyNow(c, d, diff).device.dirty
  {
    hide Reach, AcyclicUnder, Applied, Restarted, Refuses, MainGraph, OntoScaffold, LosesBinding, Changes;
    var edit := OntoScaffold(diff, c.runner, NewMainRoot(d.mainRoot, diff), d.runs + d.finished);
    RestartsTell(d.graph, edit, id);
    OntoChanges(c, diff, NewMainRoot(d.mainRoot, diff), d.runs + d.finished, id);
  }

  lemma OntoChanges(c: Config, diff: GraphDiff, root: Option<Uuid>, runs: seq<Run>, id: Uuid)
    ensures var edit := OntoScaffold(diff, c.runner, root, runs);
            && (Changes(edit, id) <==> id == c.runner || Changes(diff, id))
            && SetOf(edit.remove) == set id | id in diff.remove && id != c.runner
  {
    OnlyHolds(diff.remove, SetOf(diff.remove) - {c.runner});
    SetOfHas(diff.remove);
    var edit, rn := OntoScaffold(diff, c.runner, root, runs), RunnerNode(c.runner, root, runs);
    assert edit.set_ == diff.set_ + [rn] && rn in edit.set_;
    if s :| s in diff.set_ && s.id == id {
      assert s in edit.set_;
    }
  }

  // What is refused.

  /** A run's program: what its decorator's child is. */
  ghost predicate RunsProgramOf(g: Graph, run: Run, root: Uuid) {
    exists n :: n in g.nodes && n.id == run.decorator && ChildList(n) != [] && ChildList(n)[0] == root
  }

  lemma ProgramIs(g: Graph, run: Run, root: Uuid)
    requires UniqueIds(g.nodes)
    ensures RunsProgramOf(g, run, root) <==> ProgramRoot(g, run) == Some(root)
  {
    ByIdKeys(g.nodes);
    if exists n :: n in g.nodes && n.id == run.decorator {
      var n :| n in g.nodes && n.id == run.decorator;
      ByIdFinds(g.nodes, n);
    }
  }

  /** An edit makes `id` the main root or a child. */
  predicate Places(diff: GraphDiff, id: Uuid) {
    diff.root == Some(id) || exists s :: s in diff.set_ && id in ChildList(s)
  }

  /** It changes or removes it. */
  predicate Touches(diff: GraphDiff, id: Uuid) {
    Changes(diff, id) || id in diff.remove
  }

  predicate Decorates(runs: seq<Run>, id: Uuid) {
    exists run :: run in runs && run.decorator == id
  }

  /** It removes a run's program and does not set it again. */
  ghost predicate Unprograms(g: Graph, runs: seq<Run>, diff: GraphDiff) {
    exists run, root :: run in runs && RunsProgramOf(g, run, root)
                        && root in diff.remove && forall s :: s in diff.set_ ==> s.id != root
  }

  lemma DecoratorsListed(runs: seq<Run>, id: Uuid)
    ensures id in DecoratorsOf(SetOf(runs)) <==> Decorates(runs, id)
  {
    if Decorates(runs, id) {
      var run :| run in runs && run.decorator == id;
      assert run in SetOf(runs);
    }
  }

  lemma PlacesTell(runner: Uuid, runs: seq<Run>, diff: GraphDiff)
    ensures (RootSet(diff.root) + ChildrenOf(diff.set_)) * (DecoratorsOf(SetOf(runs)) + {runner}) == {}
            <==> forall id :: Places(diff, id) ==> id != runner && !Decorates(runs, id)
  {
    hide Decorates, Places;
    var places, scaffold := RootSet(diff.root) + ChildrenOf(diff.set_), DecoratorsOf(SetOf(runs)) + {runner};
    forall id ensures id in scaffold <==> id == runner || Decorates(runs, id) {
      DecoratorsListed(runs, id);
    }
    forall id ensures id in places <==> Places(diff, id) {
      PlacesListed(diff, id);
    }
    NoneShared(places, scaffold);
  }

  lemma PlacesListed(diff: GraphDiff, id: Uuid)
    ensures id in RootSet(diff.root) + ChildrenOf(diff.set_) <==> Places(diff, id)
  {
  }

  lemma NoneShared<T>(a: set<T>, b: set<T>)
    ensures a * b == {} <==> forall x :: x in a ==> x !in b
  {
    if a * b == {} {
      forall x | x in a ensures x !in b {
        assert x !in a * b;
      }
    }
  }

  lemma TouchesTell(runs: seq<Run>, diff: GraphDiff)
    ensures (ChangedBy(diff) + SetOf(diff.remove)) * DecoratorsOf(SetOf(runs)) == {}
            <==> forall id :: Touches(diff, id) ==> !Decorates(runs, id)
  {
    hide Decorates, Touches;
    var touched := ChangedBy(diff) + SetOf(diff.remove);
    forall id ensures id in touched <==> Touches(diff, id) {
      TouchesListed(diff, id);
    }
    forall id ensures id in DecoratorsOf(SetOf(runs)) <==> Decorates(runs, id) {
      DecoratorsListed(runs, id);
    }
    NoneShared(touched, DecoratorsOf(SetOf(runs)));
  }

  lemma TouchesListed(diff: GraphDiff, id: Uuid)
    ensures id in ChangedBy(diff) + SetOf(diff.remove) <==> Touches(diff, id)
  {
    SetOfHas(diff.remove);
  }

  lemma ProgramsTell(g: Graph, runs: seq<Run>, diff: GraphDiff)
    requires UniqueIds(g.nodes)
    ensures (exists run :: run in SetOf(runs)
                           && RootSet(ProgramRoot(g, run)) * (SetOf(diff.remove) - IdsOf(diff.set_)) != {})
            <==> Unprograms(g, runs, diff)
  {
    hide RunsProgramOf, ProgramRoot, UniqueIds;
    SetOfHas(diff.remove);
    forall run, root ensures RunsProgramOf(g, run, root) <==> ProgramRoot(g, run) == Some(root) {
      ProgramIs(g, run, root);
    }
    if Unprograms(g, runs, diff) {
      var run, root :| run in runs && RunsProgramOf(g, run, root) && root in diff.remove
                       && forall s :: s in diff.set_ ==> s.id != root;
      assert run in SetOf(runs) && root in RootSet(ProgramRoot(g, run)) * (SetOf(diff.remove) - IdsOf(diff.set_));
    }
  }

  lemma RefusalTells(g: Graph, runner: Uuid, runs: seq<Run>, diff: GraphDiff)
    requires UniqueIds(g.nodes)
    ensures Refuses(g, runner, SetOf(runs), diff)
            <==> !(forall id :: Places(diff, id) ==> id != runner && !Decorates(runs, id))
                 || !(forall id :: Touches(diff, id) ==> !Decorates(runs, id)) || Unprograms(g, runs, diff)
  {
    hide Unprograms, Places, Touches, Decorates, ProgramRoot, ChangedBy, ChildrenOf, RootSet, UniqueIds;
    PlacesTell(runner, runs, diff);
    TouchesTell(runs, diff);
    ProgramsTell(g, runs, diff);
  }

  /** An edit is refused for placing the runner or a decorator, for changing a
      decorator, for removing a run's program, or for the graph it would make,
      and for nothing else. */
  lemma ApplyAccepts(c: Config, d: Device, diff: GraphDiff)
    requires Stands(c, d)
    ensures ApplyNow(c, d, diff).ok
            <==> && (forall id :: Places(diff, id) ==> id != c.runner && !Decorates(d.runs + d.finished, id))
                 && (forall id :: Touches(diff, id) ==> !Decorates(d.runs + d.finished, id))
                 && !Unprograms(d.graph, d.runs + d.finished, diff)
                 && Accepted(c.runner, c.Lowers(d.functions), d.graph,
                             OntoScaffold(diff, c.runner, NewMainRoot(d.mainRoot, diff), d.runs + d.finished), false)
  {
    hide Accepted, Restarted, MainGraph, OntoScaffold, Refuses, Unprograms, Places, Touches, Decorates, UniqueIds;
    HangsUnique(c, d);
    RefusalTells(d.graph, c.runner, d.runs + d.finished, diff);
  }

  /** A load is refused for an id listed twice, for one of the runner's or of a
      run's nodes, unless the main root leads to it, or for the graph. */
  lemma LoadAccepts(c: Config, d: Device, loaded: Graph)
    ensures LoadNow(c, d, loaded).ok
            <==> && (forall i, j :: 0 <= i < j < |loaded.nodes| ==> loaded.nodes[i].id != loaded.nodes[j].id)
                 && (forall n :: n in loaded.nodes ==>
                       n.id != c.runner && (n.id in HeldByRuns(d) ==> n.id in UnderMain(d)))
                 && Accepted(c.runner, c.Lowers(d.functions), d.graph,
                             LoadDiff(c, d, loaded, ListOf(LoadRemoves(d.graph, c.runner, All(d), loaded))), false)
  {
    hide Accepted, Restarted, Reach, LoadRemoves, ListOf;
    var out := NotMain(Children(ById(d.graph.nodes)), c.runner, d.mainRoot, All(d));
    assert DecoratorsOf(All(d)) == set run | run in d.runs + d.finished :: run.decorator;
    assert DetachedOf(All(d)) == set run, id | run in d.runs + d.finished && id in run.detached :: id;
    assert out == HeldByRuns(d) - UnderMain(d) + {c.runner};
    NoneShared(IdsOf(loaded.nodes), out);
    forall n | n in loaded.nodes ensures n.id in IdsOf(loaded.nodes) {
    }
  }

  /** The calls beside a program: no node of it has them as a child. */
  function Beside(program: Graph, root: Uuid): set<Uuid> {
    set n | n in program.nodes && n.id != root && (forall m :: m in program.nodes ==> n.id !in ChildList(m)) :: n.id
  }

  lemma BesideIsParentless(program: Graph, root: Uuid)
    ensures Beside(program, root) == Parentless(program.nodes, root)
  {
    forall n | n in program.nodes
      ensures n.id in Slots(program.nodes) <==> exists m :: m in program.nodes && n.id in ChildList(m)
    {
      SlotsAreChildren(program.nodes, n.id);
    }
  }

  /** Through any selections the source reads the port. */
  predicate ReadsPort(source: Source, port: Port) {
    match source
    case Reads(other) => other == port
    case Select(inner, _) => ReadsPort(inner, port)
    case _ => false
  }

  lemma {:induction false} PortIsTold(source: Source, port: Port)
    ensures SourcePort(source) == Some(port) <==> ReadsPort(source, port)
  {
    if source.Select? {
      PortIsTold(source.source, port);
    }
  }

  lemma ReadsTold(n: Node, ids: set<Uuid>)
    ensures BindsWithin(n, ids)
            <==> forall port, read :: port in n.bind && ReadsPort(n.bind[port], read) ==> read.node in ids
  {
    hide ReadsPort, SourcePort;
    if BindsWithin(n, ids) {
      forall port, read | port in n.bind && ReadsPort(n.bind[port], read) ensures read.node in ids {
        PortIsTold(n.bind[port], read);
      }
    } else {
      var port :| port in n.bind && SourcePort(n.bind[port]).Some? && SourcePort(n.bind[port]).value.node !in ids;
      PortIsTold(n.bind[port], SourcePort(n.bind[port]).value);
    }
  }

  /** Beside a tree stand calls to functions of modules, without children. */
  lemma BesideAreCalls(program: Graph, root: Uuid, native: set<Uuid>)
    ensures IsTree(program.nodes, root, native)
            <==> IsTree(program.nodes, root, {})
                 && forall n :: n in program.nodes && n.id in Beside(program, root) ==>
                      n.function_ !in native && (n.children == None || n.children == Some([]))
  {
    hide Reach, Slots, SoundSlots, Children, ById;
    BesideIsParentless(program, root);
    forall n | n in program.nodes
      ensures n.id in Beside(program, root) <==> n.id != root && n.id !in Slots(program.nodes)
    {
    }
  }

  /** A program is spawned or refused for itself: it is a tree under its root with
      calls beside it, of functions a tree may call, reads only itself, and builds. */
  lemma SpawnAccepts(c: Config, program: Graph)
    ensures Spawnable(c, program)
            <==> && program.root.Some? && (exists n :: n in program.nodes && n.id == program.root.value)
                 && IsTree(program.nodes, program.root.value, {})
                 && (forall n :: n in program.nodes ==> n.function_ !in c.interpreter)
                 && (forall n :: n in program.nodes && n.id in Beside(program, program.root.value) ==>
                       n.function_ !in c.native && (n.children == None || n.children == Some([])))
                 && (forall n, port, read :: n in program.nodes && port in n.bind && ReadsPort(n.bind[port], read) ==>
                       read.node in IdsOf(program.nodes))
                 && c.builds(program)
  {
    hide IsTree, BindsWithin, Beside;
    if program.root.Some? {
      BesideAreCalls(program, program.root.value, c.native);
    }
    forall n | n in program.nodes
      ensures BindsWithin(n, IdsOf(program.nodes))
              <==> forall port, read :: port in n.bind && ReadsPort(n.bind[port], read) ==>
                     read.node in IdsOf(program.nodes)
    {
      ReadsTold(n, IdsOf(program.nodes));
    }
  }

  /** An edit is accepted that applies, keeps what hangs from the runner acyclic,
      binds no return to a selection, and lowers. */
  lemma EditAccepts(runner: Uuid, lowers: (Graph, bool) -> bool, g: Graph, diff: GraphDiff, detached: bool)
    ensures Accepted(runner, lowers, g, diff, detached)
            <==> && Applied(g, diff).Some?
                 && var after := Applied(g, diff).value;
                    && AcyclicUnder(Children(ById(after.nodes)), runner) && lowers(after, detached)
                    && forall n, source, path :: n in after.nodes && RETURN_PORT in n.bind ==>
                         n.bind[RETURN_PORT] != Select(source, path)
  {
    hide Applied, AcyclicUnder;
    if Applied(g, diff).Some? {
      forall n | n in Applied(g, diff).value.nodes
        ensures SelectsReturn(n) <==> RETURN_PORT in n.bind && exists source, path ::
                                        n.bind[RETURN_PORT] == Select(source, path)
      {
        SelectionIs(n);
      }
    }
  }

  lemma SelectionIs(n: Node)
    ensures SelectsReturn(n) <==> RETURN_PORT in n.bind && exists source, path ::
                                    n.bind[RETURN_PORT] == Select(source, path)
  {
    if SelectsReturn(n) {
      assert n.bind[RETURN_PORT] == Select(n.bind[RETURN_PORT].source, n.bind[RETURN_PORT].selection);
    }
  }

  // Halting.

  /** The nodes that leave with runs: those they lead to and their detached
      ones, but for what the main root or a node left beside the runner leads to. */
  ghost function LeavesWith(c: Config, d: Device, runs: seq<Run>): set<Uuid> {
    var edges := Children(ById(d.graph.nodes));
    var theirs := Reach(edges, set run | run in runs :: run.decorator)
                  + set run, id | run in runs && id in run.detached :: id;
    theirs - Reach(edges, IdsOf(d.graph.nodes) - {c.runner} - theirs
                          + if d.mainRoot.Some? then {d.mainRoot.value} else {})
  }

  lemma PrunedWith(c: Config, d: Device, runs: seq<Run>)
    ensures Pruned(d.graph, c.runner, d.mainRoot, SetOf(runs)) == LeavesWith(c, d, runs)
  {
    hide Reach;
    assert DecoratorsOf(SetOf(runs)) == set run | run in runs :: run.decorator;
    assert DetachedOf(SetOf(runs)) == set run, id | run in runs && id in run.detached :: id;
    assert RootSet(d.mainRoot) == if d.mainRoot.Some? then {d.mainRoot.value} else {};
  }

  lemma PruneLeaves(c: Config, d: Device, removed: set<Uuid>, diff: GraphDiff)
    requires UniqueIds(d.graph.nodes) && c.runner in IdsOf(d.graph.nodes) && c.runner !in removed
    requires diff == PruneDiff(c, d, ListOf(removed)) && Applied(d.graph, diff).Some?
    ensures var after := Applied(d.graph, diff).value;
            && UniqueIds(after.nodes) && IdsOf(after.nodes) == IdsOf(d.graph.nodes) - removed
            && (forall n :: n in after.nodes && n.id != c.runner ==>
                  exists m :: m in d.graph.nodes && LeftOf(m, removed, n))
            && RunnerOver(after, c.runner, d.mainRoot, d.runs + d.finished)
  {
    hide Applied, UniqueIds, LeftOf;
    EditGives(d.graph, diff);
    SetOfHas(diff.remove);
    var rn := RunnerNode(c.runner, d.mainRoot, d.runs + d.finished);
    assert diff.set_ == [] + [rn] && IdsOf(diff.set_) == {c.runner};
    assert removed == set id | id in diff.remove;
    forall n | n in Applied(d.graph, diff).value.nodes && n.id != c.runner
      ensures exists m :: m in d.graph.nodes && LeftOf(m, removed, n)
    {
      UnnamedIsLeft(d.graph, removed, diff, n);
    }
    var n := LastSetStands(d.graph, diff, [], rn);
    var runs := d.runs + d.finished;
    assert DecoratorList(runs) == seq(|runs|, i requires 0 <= i < |runs| => runs[i].decorator);
  }

  /** A node an edit sets and binds nothing of is left as it was. */
  lemma UnnamedIsLeft(g: Graph, removed: set<Uuid>, diff: GraphDiff, n: Node)
    requires Given(g, removed, diff, n) && n.id !in ChangedBy(diff)
    ensures exists m :: m in g.nodes && LeftOf(m, removed, n)
  {
    hide LeftOf, PortsOf;
    var base :| ComesFrom(g, removed, diff.set_, base) && PortsOf(diff, base, n)
                && n.id == base.id && n.function_ == base.function_ && n.children == base.children;
    PortsStay(diff, base, n);
    assert n == base;
  }

  lemma PortsStay(diff: GraphDiff, base: Node, n: Node)
    requires PortsOf(diff, base, n) && n.id !in ChangedBy(diff)
    ensures n.bind == base.bind
  {
    forall port
      ensures (port in n.bind <==> port in base.bind) && (port in n.bind ==> n.bind[port] == base.bind[port])
    {
      assert !BindsPort(diff.bind, n.id, port);
      assert Port(n.id, port) !in diff.unbind by {
        assert Port(n.id, port) in diff.unbind ==> n.id in ChangedBy(diff);
      }
    }
  }

  /**
   A halt that succeeds takes the first live run of the task out of the list,
   and with it the nodes nothing else leads to; every other node stays, but for
   bindings that read those.  Without such a run it changes nothing.
   */
  lemma HaltDoes(c: Config, d: Device, task: Uuid)
    requires Stands(c, d) && HaltResult(c, d, task).ok
    ensures (forall i :: 0 <= i < |d.runs| ==> d.runs[i].task != task) ==> HaltResult(c, d, task).device == d
    ensures forall at: nat ::
              at < |d.runs| && d.runs[at].task == task && (forall i :: 0 <= i < at ==> d.runs[i].task != task) ==>
                Halted(c, d, at, HaltResult(c, d, task).device)
  {
    hide PruneResult, Stands, Halted;
    RunIsFirst(d.runs, task);
    var at := RunOf(d.runs, task);
    if at < |d.runs| {
      RunIsHalted(c, d, at);
    }
  }

  lemma {:induction false} RunIsFirst(runs: seq<Run>, task: Uuid)
    ensures var at := RunOf(runs, task);
            && at <= |runs| && (at < |runs| ==> runs[at].task == task)
            && forall i :: 0 <= i < at ==> runs[i].task != task
    decreases |runs|
  {
    if runs != [] && runs[0].task != task {
      RunIsFirst(runs[1..], task);
    }
  }

  /** Of the nodes there were the removed ones left, and with them the bindings
      that read them, and the runner stands over what is left. */
  ghost predicate LeftWithout(c: Config, d: Device, removed: set<Uuid>, after: Device) {
    && UniqueIds(after.graph.nodes) && IdsOf(after.graph.nodes) == IdsOf(d.graph.nodes) - removed
    && (forall n :: n in after.graph.nodes && n.id != c.runner ==>
          exists m :: m in d.graph.nodes && LeftOf(m, removed, n))
    && RunnerOver(after.graph, c.runner, after.mainRoot, after.runs + after.finished)
  }

  ghost predicate Halted(c: Config, d: Device, at: nat, after: Device)
    requires at < |d.runs|
  {
    && after.runs == d.runs[..at] + d.runs[at + 1..] && after.finished == d.finished && after.mainRoot == d.mainRoot
    && LeftWithout(c, d, LeavesWith(c, d, [d.runs[at]]), after)
  }

  /** Runs taken out of the lists are pruned. */
  lemma PruneDoes(c: Config, d: Device, rest: Device, gone: seq<Run>)
    requires Stands(c, d) && gone != [] && SetOf(gone) <= All(d)
    requires rest == d.(runs := rest.runs, finished := rest.finished) && PruneResult(c, rest, gone, All(d)).ok
    ensures var after := PruneResult(c, rest, gone, All(d)).device;
            && after.runs == rest.runs && after.finished == rest.finished && after.mainRoot == d.mainRoot
            && LeftWithout(c, d, LeavesWith(c, d, gone), after)
  {
    hide Reach, AcyclicUnder, Applied, Restarted, MainGraph, UniqueIds, LeftOf, RunnerOver, LeavesWith, IdsOf;
    HangsUnique(c, d);
    PrunedWith(c, d, gone);
    RunnerStaysWith(c, d, gone);
    var removed := LeavesWith(c, d, gone);
    PruneLeaves(c, rest, removed, PruneDiff(c, rest, ListOf(removed)));
  }

  lemma RunIsHalted(c: Config, d: Device, at: nat)
    requires Stands(c, d) && at < |d.runs|
    requires PruneResult(c, d.(runs := d.runs[..at] + d.runs[at + 1..]), [d.runs[at]], All(d)).ok
    ensures Halted(c, d, at, PruneResult(c, d.(runs := d.runs[..at] + d.runs[at + 1..]), [d.runs[at]], All(d)).device)
  {
    hide PruneResult, LeavesWith, LeftWithout, Stands;
    assert d.runs[at] in d.runs + d.finished;
    PruneDoes(c, d, d.(runs := d.runs[..at] + d.runs[at + 1..]), [d.runs[at]]);
  }

  /** The finished runs leave all at once before an edit, a load, a spawn or a new
      lowering, each with what nothing else leads to. */
  lemma FinishedDoes(c: Config, d: Device)
    requires Stands(c, d) && FinishedResult(c, d).ok
    ensures var after := FinishedResult(c, d).device;
            && after.runs == d.runs && after.finished == [] && after.mainRoot == d.mainRoot
            && if d.finished == [] then after == d else LeftWithout(c, d, LeavesWith(c, d, d.finished), after)
  {
    hide LeavesWith, LeftWithout, Stands, Pruned, MainGraph, Accepted, Applied, Restarted;
    if d.finished != [] {
      FinishedAreRuns(d);
      PruneDoes(c, d, d.(finished := []), d.finished);
    }
  }

  lemma FinishedAreRuns(d: Device)
    ensures SetOf(d.finished) <= All(d)
  {
  }

  lemma RunnerStaysWith(c: Config, d: Device, gone: seq<Run>)
    requires Stands(c, d) && SetOf(gone) <= All(d)
    ensures c.runner in IdsOf(d.graph.nodes) && c.runner !in LeavesWith(c, d, gone)
  {
    hide Reach;
    HangingAreNodes(d.graph, c.runner, d.mainRoot, All(d));
    var decorators := set run | run in gone :: run.decorator;
    forall decorator | decorator in decorators ensures decorator in DecoratorsOf(All(d)) {
      var run :| run in gone && run.decorator == decorator;
      assert run in SetOf(gone);
    }
    ReachGrows(Children(ById(d.graph.nodes)), decorators, RootSet(d.mainRoot) + DecoratorsOf(All(d)));
    forall run | run in gone ensures c.runner !in run.detached {
      assert run in SetOf(gone) && run.detached <= DetachedOf(All(d));
    }
  }

  // Spawning.

  /** A run more, with its nodes beside those there were, under the runner. */
  ghost predicate RunAdded(c: Config, d: Device, nodes: seq<Node>, run: Run, after: Device) {
    && after.runs == d.runs + [run] && after.finished == d.finished && after.mainRoot == d.mainRoot
    && UniqueIds(after.graph.nodes)
    && (forall n: Node :: n.id != c.runner ==> (n in after.graph.nodes <==> n in d.graph.nodes || n in nodes))
    && RunnerOver(after.graph, c.runner, after.mainRoot, after.runs + after.finished)
  }

  lemma GraftDoes(c: Config, d: Device, fragment: seq<Node>, run: Run)
    requires Stands(c, d) && IsFragment(d.graph, fragment, run) && GraftResult(c, d, fragment, run).ok
    ensures RunAdded(c, d, fragment, run, GraftResult(c, d, fragment, run).device)
  {
    hide Reach, AcyclicUnder, Applied, Restarted, UniqueIds, IdsOf, IsFragment, Grafted, RunnerOver;
    HangsUnique(c, d);
    GraftMakes(d.graph, fragment, run, RunnerNode(c.runner, d.mainRoot, d.runs + [run] + d.finished));
    GraftedNodes(d.graph, fragment, run, c.runner, d.mainRoot, d.runs + [run] + d.finished);
  }

  lemma GraftedNodes(g: Graph, fragment: seq<Node>, run: Run, runner: Uuid, mainRoot: Option<Uuid>, runs: seq<Run>)
    requires UniqueIds(g.nodes) && runner in IdsOf(g.nodes) && IsFragment(g, fragment, run)
    ensures var after := Grafted(g, fragment, RunnerNode(runner, mainRoot, runs));
            && UniqueIds(after.nodes) && RunnerOver(after, runner, mainRoot, runs)
            && forall n: Node :: n.id != runner ==> (n in after.nodes <==> n in g.nodes || n in fragment)
  {
    hide UniqueIds, Reach, Grafted;
    var rn := RunnerNode(runner, mainRoot, runs);
    GraftedHolds(g, fragment, rn);
    GraftedIs(g, fragment, rn);
    assert DecoratorList(runs) == seq(|runs|, i requires 0 <= i < |runs| => runs[i].decorator);
  }

  lemma GraftedIs(g: Graph, fragment: seq<Node>, rn: Node)
    ensures forall n :: n in Grafted(g, fragment, rn).nodes ==> n == rn || n in g.nodes || n in fragment
  {
    hide SetNode;
    SetNodeShape(g.nodes, rn);
  }

  /** A call spawned: once the finished runs are pruned, a run-call node with
      the call and a run-status decorator over it, with its latch empty, stand
      beside the others as a new run. */
  lemma SpawnDoes(c: Config, d: Device, run: Run, id: Uuid, call: Value)
    requires Stands(c, d) && SpawnResult(c, d, run, id, call).ok && run.detached == {} && run.decorator != id
    requires {id, run.decorator} !! IdsOf(FinishedResult(c, d).device.graph.nodes)
    ensures RunAdded(c, FinishedResult(c, d).device,
                     [Node(id, RUN_CALL, map[RUN_CALL_PARAMETER := Literal(call)], None),
                      Node(run.decorator, RUN_STATUS,
                           map[RUN_STATUS_LATCH := Literal(Unit), RUN_STATUS_OUT := Key(run.status)], Some([id]))],
                     run, SpawnResult(c, d, run, id, call).device)
  {
    hide FinishedResult, GraftResult, RunAdded, Stands;
    FinishedStands(c, d);
    var before := FinishedResult(c, d).device;
    CallIsFragment(before.graph, run, id, call);
    assert CallFragment(run, id, call)
           == [Node(id, RUN_CALL, map[RUN_CALL_PARAMETER := Literal(call)], None),
               Node(run.decorator, RUN_STATUS,
                    map[RUN_STATUS_LATCH := Literal(Unit), RUN_STATUS_OUT := Key(run.status)], Some([id]))];
    GraftDoes(c, before, CallFragment(run, id, call), run);
  }

  /** What only the run at `at` holds, its decorator apart. */
  ghost function OnlyIts(c: Config, d: Device, at: nat): set<Uuid>
    requires at < |d.runs|
  {
    LeavesWith(c, d, [d.runs[at]]) * IdsOf(d.graph.nodes) - {d.runs[at].decorator}
  }

  /** The run at `at` runs `program`: its nodes stand as given, those of its
      own it does not list left, and every other is as it was. */
  ghost predicate Reprogrammed(c: Config, d: Device, at: nat, program: Graph, root: Uuid, after: Device)
    requires at < |d.runs|
  {
    var removed := OnlyIts(c, d, at) - IdsOf(program.nodes);
    && after.runs == d.runs[at := d.runs[at].(detached := Beside(program, root))]
    && after.finished == d.finished && after.mainRoot == d.mainRoot
    && IdsOf(program.nodes) * IdsOf(d.graph.nodes) <= OnlyIts(c, d, at)
    && UniqueIds(after.graph.nodes)
    && IdsOf(after.graph.nodes) == IdsOf(d.graph.nodes) - removed + IdsOf(program.nodes)
    && (forall n :: n in program.nodes ==> n in after.graph.nodes)
    && forall n :: n in after.graph.nodes && n.id !in IdsOf(program.nodes) ==>
         exists m :: m in d.graph.nodes && LeftOf(m, removed, n)
  }

  lemma OwnIsOnlyIts(c: Config, d: Device, at: nat, root: Option<Uuid>)
    requires UniqueIds(d.graph.nodes) && at < |d.runs|
    ensures IdsOf(OwnGraph(d.graph, c.runner, d.mainRoot, d.runs[at], root).nodes) == OnlyIts(c, d, at)
    ensures RunHolds(d.graph, d.runs[at]) - StaysOutside(d.graph, c.runner, d.mainRoot, d.runs[at])
            == LeavesWith(c, d, [d.runs[at]]) - {d.runs[at].decorator}
  {
    hide Reach, Kept;
    var edges, run := Children(ById(d.graph.nodes)), d.runs[at];
    HeldByOne(edges, run);
    OwnHolds(d.graph, c.runner, d.mainRoot, run, root);
    var its := Reach(edges, {run.decorator}) + run.detached;
    assert (set r | r in [run] :: r.decorator) == {run.decorator};
    assert (set r, id | r in [run] && id in r.detached :: id) == run.detached;
    assert run.decorator in its;
    assert RunHolds(d.graph, run) + {run.decorator} == its;
    assert RootSet(d.mainRoot) == if d.mainRoot.Some? then {d.mainRoot.value} else {};
  }

  lemma RespawnLeaves(c: Config, d: Device, at: nat, program: Graph, diff: GraphDiff)
    requires at < |d.runs| && program.root.Some? && RespawnResult(c, d, at, program, diff).ok
    ensures var after := RespawnResult(c, d, at, program, diff).device;
            && NamesItsOwn(d.graph, c.runner, d.mainRoot, d.runs[at], program.nodes)
            && Applied(d.graph, diff) == Some(after.graph)
            && after.runs == d.runs[at := d.runs[at].(detached := Beside(program, program.root.value))]
            && after.finished == d.finished && after.mainRoot == d.mainRoot
  {
    hide AcyclicUnder, Applied, Restarted, MainGraph, NamesItsOwn, Beside, Parentless;
    BesideIsParentless(program, program.root.value);
    EmptyDiffKeeps(d.graph);
  }

  lemma RespawnDoes(c: Config, d: Device, at: nat, program: Graph, diff: GraphDiff, root: Uuid)
    requires Stands(c, d) && at < |d.runs| && Respawning(c, d, at, program, diff) && program.root == Some(root)
    requires RespawnResult(c, d, at, program, diff).ok
    ensures Reprogrammed(c, d, at, program, root, RespawnResult(c, d, at, program, diff).device)
  {
    hide Respawning, RespawnResult, Applied, LeftOf, IdsOf, UniqueIds, OnlyIts, ChangedBy, NamesItsOwn, Stands, Beside,
         IsRespawn;
    RespawnLeaves(c, d, at, program, diff);
    DiffRemoves(c, d, at, program, diff);
    RespawnGives(c, d, at, program, diff, OnlyIts(c, d, at) - IdsOf(program.nodes));
  }

  lemma DiffRemoves(c: Config, d: Device, at: nat, program: Graph, diff: GraphDiff)
    requires Stands(c, d) && at < |d.runs| && Respawning(c, d, at, program, diff)
    requires NamesItsOwn(d.graph, c.runner, d.mainRoot, d.runs[at], program.nodes)
    ensures UniqueIds(d.graph.nodes) && UniqueIds(program.nodes) && ChangedBy(diff) <= IdsOf(program.nodes)
    ensures SetOf(diff.remove) == OnlyIts(c, d, at) - IdsOf(program.nodes)
    ensures IdsOf(program.nodes) * IdsOf(d.graph.nodes) <= OnlyIts(c, d, at)
    ensures (forall s :: s in diff.set_ ==> s in program.nodes)
    ensures IsRespawn(d.graph, c.runner, d.mainRoot, d.runs[at], program, diff)
  {
    hide Reach, LeavesWith, ChangedBy, IsDiff, RunHolds, StaysOutside;
    HangsUnique(c, d);
    var run := d.runs[at];
    OwnIsOnlyIts(c, d, at, program.root);
    DiffNames(OwnGraph(d.graph, c.runner, d.mainRoot, run, program.root), program, diff);
    forall id | id in IdsOf(program.nodes) * IdsOf(d.graph.nodes) ensures id in OnlyIts(c, d, at) {
      var n :| n in program.nodes && n.id == id;
      assert id in RunHolds(d.graph, run) - StaysOutside(d.graph, c.runner, d.mainRoot, run);
    }
  }

  lemma RespawnGives(c: Config, d: Device, at: nat, program: Graph, diff: GraphDiff, removed: set<Uuid>)
    requires UniqueIds(d.graph.nodes) && at < |d.runs| && Applied(d.graph, diff).Some?
    requires IsRespawn(d.graph, c.runner, d.mainRoot, d.runs[at], program, diff)
    requires SetOf(diff.remove) == removed && ChangedBy(diff) <= IdsOf(program.nodes)
    requires removed == OnlyIts(c, d, at) - IdsOf(program.nodes)
    requires IdsOf(program.nodes) * IdsOf(d.graph.nodes) <= OnlyIts(c, d, at)
    requires (forall s :: s in diff.set_ ==> s in program.nodes)
    ensures var after := Applied(d.graph, diff).value;
            && UniqueIds(after.nodes) && IdsOf(after.nodes) == IdsOf(d.graph.nodes) - removed + IdsOf(program.nodes)
            && (forall n :: n in program.nodes ==> n in after.nodes)
            && forall n :: n in after.nodes && n.id !in IdsOf(program.nodes) ==>
                 exists m :: m in d.graph.nodes && LeftOf(m, removed, n)
  {
    hide Applied, UniqueIds, LeftOf, OnlyIts, IsRespawn;
    var after := Applied(d.graph, diff).value;
    EditGives(d.graph, diff);
    SetOfHas(diff.remove);
    assert removed == set id | id in diff.remove;
    forall n | n in program.nodes ensures n in after.nodes {
      RespawnTakes(d.graph, c.runner, d.mainRoot, d.runs[at], program, diff, n);
    }
    forall n | n in after.nodes && n.id !in IdsOf(program.nodes)
      ensures exists m :: m in d.graph.nodes && LeftOf(m, removed, n)
    {
      UnnamedIsLeft(d.graph, removed, diff, n);
    }
  }

  /** A program spawned: the first live run of its root takes it, and without
      one it is a run of its own, of new nodes. */
  ghost predicate ProgramSpawned(c: Config, d: Device, program: Graph, root: Uuid, run: Run, after: Device) {
    if forall i :: 0 <= i < |d.runs| ==> !RunsProgramOf(d.graph, d.runs[i], root) then
      && IdsOf(program.nodes) !! IdsOf(d.graph.nodes)
      && RunAdded(c, d,
                  program.nodes
                  + [Node(run.decorator, RUN_STATUS,
                          map[RUN_STATUS_LATCH := Literal(Unit), RUN_STATUS_OUT := Key(run.status)], Some([root]))],
                  run.(detached := Beside(program, root)), after)
    else
      forall at: nat ::
        at < |d.runs| && RunsProgramOf(d.graph, d.runs[at], root)
        && (forall i :: 0 <= i < at ==> !RunsProgramOf(d.graph, d.runs[i], root)) ==>
          Reprogrammed(c, d, at, program, root, after)
  }

  /** What a graph that is spawned leaves, once the finished runs are pruned. */
  lemma SpawnGraphDoes(c: Config, d: Device, program: Graph, run: Run, r: Result)
    requires Stands(c, d) && SpawnsGraph(c, d, program, run, r) && r.ok
    requires run.decorator !in IdsOf(program.nodes) + IdsOf(FinishedResult(c, d).device.graph.nodes)
    ensures program.root.Some?
    ensures ProgramSpawned(c, FinishedResult(c, d).device, program, program.root.value, run, r.device)
  {
    hide FinishedResult, Stands, Reprogrammed, RunAdded, Respawning, GraftResult, RespawnResult, IsTree, RunsProgramOf;
    FinishedStands(c, d);
    SpawnNowDoes(c, FinishedResult(c, d).device, program, program.root.value, run, r);
  }

  lemma SpawnNowDoes(c: Config, d: Device, program: Graph, root: Uuid, run: Run, r: Result)
    requires Stands(c, d) && Spawnable(c, program) && program.root == Some(root)
    requires SpawnsNow(c, d, program, run, r) && r.ok
    requires run.decorator !in IdsOf(program.nodes) + IdsOf(d.graph.nodes)
    ensures ProgramSpawned(c, d, program, root, run, r.device)
  {
    hide Stands, Reprogrammed, RunAdded, Respawning, GraftResult, RespawnResult, IsTree, RunsProgramOf, Reach,
         MainGraph, ReadsWithin, ProgramRoot, UniqueIds, IsFragment, Parentless, Beside;
    HangsUnique(c, d);
    forall i | 0 <= i < |d.runs|
      ensures RunsProgramOf(d.graph, d.runs[i], root) <==> ProgramRoot(d.graph, d.runs[i]) == Some(root)
    {
      ProgramIs(d.graph, d.runs[i], root);
    }
    var at := RunRooted(d.graph, d.runs, root);
    if at < |d.runs| {
      var diff :| Respawning(c, d, at, program, diff) && r == RespawnResult(c, d, at, program, diff);
      RespawnDoes(c, d, at, program, diff, root);
    } else {
      var kept := run.(detached := Beside(program, root));
      BesideIsParentless(program, root);
      GraphIsFragment(d.graph, program, run, c.native);
      GraftDoes(c, d, GraphFragment(program, kept), kept);
    }
  }
}
