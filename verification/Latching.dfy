/**
 Latches: once a run's decorator has written a terminal status, which
 operations let a later tick invoke its program again, and which never do.

 A decorator is `Latched` if it is a run-status node over a program that reads
 no port and, once it has written a terminal status, its latch is in the
 lowered tree and it is not to start afresh.  For each operation, one lemma says when it keeps a decorator
 latched; together they are `StepLatches`, which is exact.

 Over runs of operations, `StaysLatched` follows one decorator and
 `AlwaysLatched` all of them, those spawned on the way included.  Both rest on
 no operation relisting a decorator; `GuardedRelistsNone` says that none does
 while the runner alone holds them.
 */
module Latching {
  import opened Integers
  import opened Digraphs
  import opened Graphs
  import opened GraphEdits
  import opened Scaffolds
  import opened Grafts
  import opened Decorators
  import opened Respawns
  import opened ScaffoldEdits
  import opened RespawnEdits
  import opened Devices
  import opened Spawning
  import opened Ticking
  import opened Lifetimes

  predicate HasEnded(d: Device, decorator: Uuid) {
    decorator in DecoratorsOf(All(d)) && WroteTerminal(d, decorator)
  }

  predicate WroteTerminal(d: Device, decorator: Uuid) {
    decorator in d.published && d.published[decorator] != Running
  }

  /** Once a run's terminal status is written, its latch holds it, and its
      decorator does not start afresh. */
  predicate LatchHolds(d: Device, decorator: Uuid) {
    WroteTerminal(d, decorator) ==>
      && decorator !in d.afresh && d.latches.Some? && decorator in d.latches.value
      && d.latches.value[decorator] == Some(d.published[decorator])
  }

  /** A run-status node over a program, that reads no port. */
  predicate Decorates(n: Node) {
    n.function_ == RUN_STATUS && ChildList(n) != [] && !ReadsPorts(n)
  }

  function Others(nodes: seq<Node>): set<Uuid> {
    set n | n in nodes && !Decorates(n) :: n.id
  }

  /** The latch holds, the decorator is one, and without a change nothing is to
      start afresh. */
  predicate Latched(d: Device, decorator: Uuid) {
    LatchHolds(d, decorator) && decorator !in Others(d.graph.nodes) && (d.dirty || d.afresh == {})
  }

  lemma OthersRead(nodes: seq<Node>)
    ensures Readers(nodes) <= Others(nodes)
  {
  }

  // Edits.

  /** What an edit makes of a device, but for its lists and its revision. */
  ghost predicate EditedBy(d: Device, after: Device, diff: GraphDiff) {
    && Applied(d.graph, diff) == Some(after.graph) && after.dirty
    && after.latches == d.latches && after.published == d.published
    && after.afresh == d.afresh + Restarted(d.graph, diff)
  }

  /** An edit lets go of exactly the latches of the ended decorators it names. */
  lemma EditLatched(d: Device, after: Device, diff: GraphDiff, decorator: Uuid)
    requires UniqueIds(d.graph.nodes) && EditedBy(d, after, diff) && Latched(d, decorator)
    ensures decorator !in ChangedBy(diff) ==> Latched(after, decorator)
    ensures decorator in ChangedBy(diff) && WroteTerminal(d, decorator) ==> !LatchHolds(after, decorator)
  {
    if decorator !in ChangedBy(diff) {
      OthersRead(d.graph.nodes);
      UnnamedStays(d.graph, diff, decorator);
    }
  }

  /** An edit that sets nodes and the runner names no others. */
  lemma SetsNoOthers(remove: seq<Uuid>, nodes: seq<Node>, rn: Node)
    ensures ChangedBy(GraphDiff(remove, nodes + [rn], [], [], None)) == IdsOf(nodes) + {rn.id}
  {
    assert forall n :: n in nodes + [rn] <==> n in nodes || n == rn;
  }

  lemma DecoratorIsNotRunner(c: Config, d: Device, decorator: Uuid)
    requires Stands(c, d) && decorator in DecoratorsOf(All(d))
    ensures decorator != c.runner && decorator in IdsOf(d.graph.nodes)
  {
    HangingAreNodes(d.graph, c.runner, d.mainRoot, All(d));
  }

  lemma PrunedLatched(c: Config, d: Device, pruned: set<Uuid>, before: Graph, decorator: Uuid)
    requires UniqueIds(d.graph.nodes) && decorator != c.runner && Latched(d, decorator)
    ensures Latched(PrunedDevice(c, d, pruned, before).device, decorator)
  {
    hide Reach, MainGraph;
    var diff := PruneDiff(c, d, ListOf(pruned));
    if PrunedDevice(c, d, pruned, before).ok {
      SetsNoOthers(diff.remove, [], diff.set_[0]);
      assert [] + [diff.set_[0]] == diff.set_;
      EditLatched(d, PrunedDevice(c, d, pruned, before).device, diff, decorator);
    }
  }

  lemma PruneLatched(c: Config, d: Device, gone: seq<Run>, all: set<Run>, decorator: Uuid)
    requires UniqueIds(d.graph.nodes) && decorator != c.runner && Latched(d, decorator)
    ensures Latched(PruneResult(c, d, gone, all).device, decorator)
  {
    hide Reach, Accepted;
    if gone != [] {
      PrunedLatched(c, d, Pruned(d.graph, c.runner, d.mainRoot, SetOf(gone)),
                    MainGraph(d.graph, c.runner, d.mainRoot, all), decorator);
    }
  }

  lemma FinishedLatched(c: Config, d: Device, decorator: Uuid)
    requires UniqueIds(d.graph.nodes) && decorator != c.runner && Latched(d, decorator)
    ensures Latched(FinishedResult(c, d).device, decorator)
  {
    hide Reach, Accepted;
    PruneLatched(c, d.(finished := []), d.finished, All(d), decorator);
  }

  lemma HaltLatched(c: Config, d: Device, task: Uuid, decorator: Uuid)
    requires UniqueIds(d.graph.nodes) && decorator != c.runner && Latched(d, decorator)
    ensures Latched(HaltResult(c, d, task).device, decorator)
  {
    hide Reach, Accepted;
    var at := RunOf(d.runs, task);
    if at < |d.runs| {
      PruneLatched(c, d.(runs := d.runs[..at] + d.runs[at + 1..]), [d.runs[at]], All(d), decorator);
    }
  }

  lemma OntoNames(diff: GraphDiff, runner: Uuid, root: Option<Uuid>, list: seq<Run>)
    ensures ChangedBy(OntoScaffold(diff, runner, root, list)) == ChangedBy(diff) + {runner}
  {
    var rn := RunnerNode(runner, root, list);
    assert forall n :: n in diff.set_ + [rn] <==> n in diff.set_ || n == rn;
    assert IdsOf(diff.set_ + [rn]) == IdsOf(diff.set_) + {runner};
  }

  lemma ApplyLatched(c: Config, d: Device, diff: GraphDiff, decorator: Uuid)
    requires Stands(c, d) && decorator in DecoratorsOf(All(d)) && Latched(d, decorator)
    ensures Latched(ApplyNow(c, d, diff).device, decorator)
  {
    hide Reach, MainGraph, Applied, Restarted, ChangedBy, Readers, Others, AcyclicUnder;
    DecoratorIsNotRunner(c, d, decorator);
    var edit := OntoScaffold(diff, c.runner, NewMainRoot(d.mainRoot, diff), d.runs + d.finished);
    if ApplyNow(c, d, diff).ok {
      OntoNames(diff, c.runner, NewMainRoot(d.mainRoot, diff), d.runs + d.finished);
      EditLatched(d, ApplyNow(c, d, diff).device, edit, decorator);
    }
  }

  lemma LoadLatched(c: Config, d: Device, graph: Graph, decorator: Uuid)
    requires Stands(c, d) && decorator in DecoratorsOf(All(d)) && Latched(d, decorator) && LoadNow(c, d, graph).ok
    ensures decorator !in IdsOf(graph.nodes) ==> Latched(LoadNow(c, d, graph).device, decorator)
    ensures decorator in IdsOf(graph.nodes) && WroteTerminal(d, decorator) ==>
              !LatchHolds(LoadNow(c, d, graph).device, decorator)
  {
    hide Reach, MainGraph;
    DecoratorIsNotRunner(c, d, decorator);
    var diff := LoadDiff(c, d, graph, ListOf(LoadRemoves(d.graph, c.runner, All(d), graph)));
    SetsNoOthers(diff.remove, graph.nodes, RunnerNode(c.runner, graph.root, d.runs + d.finished));
    EditLatched(d, LoadNow(c, d, graph).device, diff, decorator);
  }

  // Spawns.

  lemma GraftLatched(c: Config, d: Device, fragment: seq<Node>, run: Run, decorator: Uuid)
    requires Stands(c, d) && decorator in DecoratorsOf(All(d)) && Latched(d, decorator)
    requires IdsOf(fragment) !! IdsOf(d.graph.nodes)
    ensures Latched(GraftResult(c, d, fragment, run).device, decorator)
  {
    hide Reach, MainGraph;
    DecoratorIsNotRunner(c, d, decorator);
    var rn := RunnerNode(c.runner, d.mainRoot, d.runs + [run] + d.finished);
    var diff := GraphDiff([], fragment + [rn], [], [], None);
    if GraftResult(c, d, fragment, run).ok {
      SetsNoOthers([], fragment, rn);
      EditLatched(d, GraftResult(c, d, fragment, run).device, diff, decorator);
    }
  }

  /** A decorator a run brings has written nothing, and reads no port. */
  lemma NewLatched(c: Config, d: Device, nodes: seq<Node>, root: Uuid, run: Run)
    requires Stands(c, d) && run.decorator !in d.published
    requires IsFragment(d.graph, nodes + [DecoratorNode(run.decorator, run.status, root)], run)
    requires GraftResult(c, d, nodes + [DecoratorNode(run.decorator, run.status, root)], run).ok
    ensures Latched(GraftResult(c, d, nodes + [DecoratorNode(run.decorator, run.status, root)], run).device,
                    run.decorator)
  {
    hide Reach, GraftResult, IsFragment, Readers, Others, Grafted;
    var decorator := DecoratorNode(run.decorator, run.status, root);
    GraftIs(c, d, nodes + [decorator], run);
    NewDecorates(d.graph, nodes, decorator, run, RunnerNode(c.runner, d.mainRoot, d.runs + [run] + d.finished));
  }

  lemma GraftIs(c: Config, d: Device, fragment: seq<Node>, run: Run)
    requires Stands(c, d) && IsFragment(d.graph, fragment, run) && GraftResult(c, d, fragment, run).ok
    ensures var after := GraftResult(c, d, fragment, run).device;
            && after.graph == Grafted(d.graph, fragment, RunnerNode(c.runner, d.mainRoot, d.runs + [run] + d.finished))
            && after.published == d.published && after.dirty
  {
    hide Reach, MainGraph, AcyclicUnder, Restarted;
    GraftMakes(d.graph, fragment, run, RunnerNode(c.runner, d.mainRoot, d.runs + [run] + d.finished));
  }

  lemma NewDecorates(g: Graph, nodes: seq<Node>, decorator: Node, run: Run, rn: Node)
    requires UniqueIds(g.nodes) && rn.id in IdsOf(g.nodes) && IsFragment(g, nodes + [decorator], run)
    requires Decorates(decorator)
    ensures decorator.id !in Others(Grafted(g, nodes + [decorator], rn).nodes)
  {
    GraftedHolds(g, nodes + [decorator], rn);
    assert decorator in nodes + [decorator];
    DecoratesAlone(Grafted(g, nodes + [decorator], rn).nodes, decorator);
  }

  lemma DecoratesAlone(nodes: seq<Node>, n: Node)
    requires UniqueIds(nodes) && n in nodes && Decorates(n)
    ensures n.id !in Others(nodes)
  {
    forall m | m in nodes && m.id == n.id ensures m == n {
      OneOfAnId(nodes, n, m);
    }
  }

  /** A diff between graphs names exactly the nodes the one lists otherwise
      than the other, of those that read no port. */
  lemma DiffRenames(from: Graph, to: Graph, diff: GraphDiff, id: Uuid)
    requires UniqueIds(from.nodes) && UniqueIds(to.nodes) && to.root.Some? && IsDiff(from, to, diff)
    requires id in IdsOf(from.nodes) && id !in Readers(from.nodes)
    ensures id in ChangedBy(diff) <==> exists n :: n in to.nodes && n.id == id && n !in from.nodes
  {
    DiffNames(from, to, diff);
    SetWholeHolds(from, to, to.nodes);
    var m :| m in from.nodes && m.id == id;
    ByIdFinds(from.nodes, m);
    if n :| n in to.nodes && n.id == id {
      ByIdFinds(to.nodes, n);
      OneOfAnId(to.nodes, n, n);
      if n == m {
        SameIsNotNamed(from, to, diff, n);
      } else {
        OneOfAnId(from.nodes, m, n);
        OtherIsNamed(from, to, diff, m, n);
      }
      forall o | o in to.nodes && o.id == id ensures o == n {
        OneOfAnId(to.nodes, n, o);
      }
    }
  }

  lemma SameIsNotNamed(from: Graph, to: Graph, diff: GraphDiff, n: Node)
    requires UniqueIds(from.nodes) && UniqueIds(to.nodes) && to.root.Some? && IsDiff(from, to, diff)
    requires n in from.nodes && n in to.nodes && !ReadsPorts(n)
    ensures n.id !in ChangedBy(diff)
  {
    SameIsNotSet(from, to, n);
    forall b | b in diff.bind ensures b.node != n.id {
      SameIsNotBound(from, to, n, b);
    }
    forall p | p in diff.unbind ensures p.node != n.id {
      SameIsNotUnbound(from, to, n, p);
    }
  }

  lemma SameIsNotSet(from: Graph, to: Graph, n: Node)
    requires UniqueIds(from.nodes) && UniqueIds(to.nodes) && to.root.Some?
    requires n in from.nodes && n in to.nodes
    ensures n.id !in IdsOf(SetWhole(from, to, to.nodes))
  {
    SetWholeHolds(from, to, to.nodes);
    ByIdFinds(from.nodes, n);
    forall s | s in to.nodes && s.id == n.id ensures s == n {
      OneOfAnId(to.nodes, n, s);
    }
  }

  lemma SameIsNotBound(from: Graph, to: Graph, n: Node, b: Binding)
    requires UniqueIds(from.nodes) && UniqueIds(to.nodes) && n in from.nodes && n in to.nodes && !ReadsPorts(n)
    requires ToBind(from, to, b)
    ensures b.node != n.id
  {
    ByIdFinds(from.nodes, n);
    ByIdFinds(to.nodes, n);
  }

  lemma SameIsNotUnbound(from: Graph, to: Graph, n: Node, p: Port)
    requires UniqueIds(from.nodes) && UniqueIds(to.nodes) && n in from.nodes && n in to.nodes
    requires ToUnbind(from, to, p)
    ensures p.node != n.id
  {
    ByIdFinds(from.nodes, n);
    ByIdFinds(to.nodes, n);
  }

  lemma OtherIsNamed(from: Graph, to: Graph, diff: GraphDiff, m: Node, n: Node)
    requires UniqueIds(from.nodes) && UniqueIds(to.nodes) && IsDiff(from, to, diff)
    requires m in from.nodes && n in to.nodes && m.id == n.id && m != n && !ReadsPorts(m)
    ensures n.id in ChangedBy(diff)
  {
    SetWholeHolds(from, to, to.nodes);
    ByIdFinds(from.nodes, m);
    ByIdFinds(to.nodes, n);
    if Stays(from, to, n) {
      var port :| (port in m.bind) != (port in n.bind) || (port in m.bind && m.bind[port] != n.bind[port]);
      if port in n.bind {
        assert ToBind(from, to, Binding(n.id, port, n.bind[port]));
      } else {
        assert ToUnbind(from, to, Port(n.id, port));
      }
    } else {
      assert n in diff.set_;
    }
  }

  /** A node listed otherwise than the graph has it. */
  predicate ListsAnew(g: Graph, nodes: seq<Node>, id: Uuid) {
    exists n :: n in nodes && n.id == id && n !in g.nodes
  }

  lemma OwnLists(g: Graph, runner: Uuid, mainRoot: Option<Uuid>, run: Run, graph: Graph, id: Uuid)
    requires UniqueIds(g.nodes) && NamesItsOwn(g, runner, mainRoot, run, graph.nodes)
    requires id in IdsOf(g.nodes) && id in IdsOf(graph.nodes) && id !in Readers(g.nodes)
    ensures var own := OwnGraph(g, runner, mainRoot, run, graph.root);
            && UniqueIds(own.nodes) && id in IdsOf(own.nodes) && id !in Readers(own.nodes)
            && forall n: Node :: n.id == id ==> (n in own.nodes <==> n in g.nodes)
  {
    hide Reach;
    OwnHolds(g, runner, mainRoot, run, graph.root);
    KeptHolds(g.nodes, IdsOf(g.nodes) - (RunHolds(g, run) - StaysOutside(g, runner, mainRoot, run)));
  }

  lemma RespawnNames(g: Graph, runner: Uuid, mainRoot: Option<Uuid>, run: Run, graph: Graph, diff: GraphDiff, id: Uuid)
    requires UniqueIds(g.nodes) && UniqueIds(graph.nodes) && graph.root.Some?
    requires NamesItsOwn(g, runner, mainRoot, run, graph.nodes)
    requires IsDiff(OwnGraph(g, runner, mainRoot, run, graph.root), graph, diff)
    requires id in IdsOf(g.nodes) && id !in Readers(g.nodes)
    ensures id in ChangedBy(diff) <==> ListsAnew(g, graph.nodes, id)
  {
    hide Reach, OwnGraph, IsDiff, NamesItsOwn;
    var own := OwnGraph(g, runner, mainRoot, run, graph.root);
    if id in IdsOf(graph.nodes) {
      OwnLists(g, runner, mainRoot, run, graph, id);
      DiffRenames(own, graph, diff, id);
    } else {
      DiffNames(own, graph, diff);
    }
  }

  /** What a respawn that succeeds does: nothing to the graph, or the edit. */
  lemma RespawnDoes(c: Config, d: Device, at: nat, graph: Graph, diff: GraphDiff)
    requires at < |d.runs| && graph.root.Some? && RespawnResult(c, d, at, graph, diff).ok
    ensures var after := RespawnResult(c, d, at, graph, diff).device;
            && NamesItsOwn(d.graph, c.runner, d.mainRoot, d.runs[at], graph.nodes)
            && (if diff == NO_CHANGE then after == d.(runs := after.runs) else EditedBy(d, after, diff))
  {
    hide Reach, MainGraph, AcyclicUnder, Applied, Restarted, NamesItsOwn;
  }

  /** A graph spawned again lets go of exactly the latches of the ended
      decorators it lists anew. */
  lemma RespawnLatched(c: Config, d: Device, at: nat, graph: Graph, diff: GraphDiff, decorator: Uuid)
    requires Stands(c, d) && Respawning(c, d, at, graph, diff)
    requires decorator in DecoratorsOf(All(d)) && Latched(d, decorator)
    ensures var r := RespawnResult(c, d, at, graph, diff);
            && (!(r.ok && ListsAnew(d.graph, graph.nodes, decorator)) ==> Latched(r.device, decorator))
            && (r.ok && ListsAnew(d.graph, graph.nodes, decorator) && WroteTerminal(d, decorator) ==>
                  !LatchHolds(r.device, decorator))
  {
    hide Reach, MainGraph, Applied, Readers, Others, Restarted, NamesItsOwn, Accepted, OwnGraph, IsDiff;
    DecoratorIsNotRunner(c, d, decorator);
    var r := RespawnResult(c, d, at, graph, diff);
    if r.ok {
      RespawnDoes(c, d, at, graph, diff);
      RespawnDid(c, d, at, graph, diff, r, decorator);
    }
  }

  lemma RespawnDid(c: Config, d: Device, at: nat, graph: Graph, diff: GraphDiff, r: Result, decorator: Uuid)
    requires UniqueIds(d.graph.nodes) && Respawning(c, d, at, graph, diff) && decorator in IdsOf(d.graph.nodes)
    requires NamesItsOwn(d.graph, c.runner, d.mainRoot, d.runs[at], graph.nodes) && Latched(d, decorator)
    requires if diff == NO_CHANGE then r.device == d.(runs := r.device.runs) else EditedBy(d, r.device, diff)
    ensures !ListsAnew(d.graph, graph.nodes, decorator) ==> Latched(r.device, decorator)
    ensures ListsAnew(d.graph, graph.nodes, decorator) && WroteTerminal(d, decorator) ==>
              !LatchHolds(r.device, decorator)
  {
    hide Reach, Readers, Others, NamesItsOwn, Accepted, OwnGraph, IsDiff, EditedBy;
    if diff == NO_CHANGE {
      NothingToChange(c, d, at, graph, diff);
      RunsAlreadyListed(d.graph, c.runner, d.mainRoot, d.runs[at], graph);
    } else {
      OthersRead(d.graph.nodes);
      RespawnNames(d.graph, c.runner, d.mainRoot, d.runs[at], graph, diff, decorator);
      EditLatched(d, r.device, diff, decorator);
    }
  }

  // Ticks.

  lemma LoweringLatched(d: Device, functions: Functions, decorator: Uuid)
    requires Latched(d, decorator) && decorator in DecoratorsOf(All(d))
    ensures Latched(Lowering(d, functions), decorator)
  {
  }

  lemma LoweredAfterLatched(f: Result, m: Meets, decorator: Uuid)
    requires Latched(f.device, decorator)
    ensures var l := LoweredAfter(f, m);
            && (decorator in DecoratorsOf(All(l.device)) ==> Latched(l.device, decorator))
            && l.device.published == f.device.published && All(l.device) == All(f.device)
            && (l.ok ==> l.device.afresh == {})
            && (l.ok && l.device.latches.Some? && decorator in l.device.latches.value ==>
                  decorator in DecoratorsOf(All(l.device)))
  {
    hide Readers, Others;
    if decorator in DecoratorsOf(All(f.device)) {
      LoweringLatched(f.device, m.functions, decorator);
    }
  }

  /** The latches a lowering carries are those it found. */
  lemma LoweredLatched(c: Config, d: Device, m: Meets, decorator: Uuid)
    requires UniqueIds(d.graph.nodes) && decorator != c.runner && Latched(d, decorator)
    ensures var l := LoweredResult(c, d, m);
            && (decorator in DecoratorsOf(All(l.device)) ==> Latched(l.device, decorator))
            && l.device.published == d.published && (l.ok ==> l.device.afresh == {})
            && (WroteTerminal(d, decorator) && l.ok && l.device.latches.Some? && decorator in l.device.latches.value ==>
                  Terminal(l.device.latches.value[decorator]))
  {
    hide Reach, MainGraph, Accepted, Readers, Others, FinishedResult;
    if d.dirty {
      FinishedLists(c, d);
      FinishedLatched(c, d, decorator);
      LoweredAfterLatched(FinishedResult(c, d), m, decorator);
    }
  }

  lemma TreeLatched(d: Device, m: Meets, decorator: Uuid)
    requires d.afresh == {}
    requires d.latches.Some? && decorator in d.latches.value && WroteTerminal(d, decorator) ==>
               Terminal(d.latches.value[decorator])
    ensures var after := TreeResult(d, m).device;
            && (Latched(d, decorator) ==> Latched(after, decorator))
            && (WroteTerminal(d, decorator) ==>
                  decorator in after.published && after.published[decorator] == d.published[decorator])
            && All(after) == All(d)
  {
    SweptAlike(TickedTree(d, m));
  }

  /** The decorators whose program a tick invokes. */
  ghost function TickInvokes(c: Config, d: Device, m: Meets): set<Uuid> {
    if !m.haltsWritten || (d.written != Some(d.revision) && !m.revisionWritten) then {}
    else
      var l := LoweredResult(c, Written(d), m);
      if l.ok && l.device.latches.Some? then Invoked(l.device.latches.value, m) else {}
  }

  /** A tick keeps a latch, invokes no ended program, and rewrites no terminal
      status. */
  lemma TickLatched(c: Config, d: Device, m: Meets, decorator: Uuid)
    requires UniqueIds(d.graph.nodes) && decorator != c.runner && Latched(d, decorator)
    ensures var after := TickResult(c, d, m).device;
            && (decorator in DecoratorsOf(All(after)) ==> Latched(after, decorator))
            && (WroteTerminal(d, decorator) ==>
                  decorator in after.published && after.published[decorator] == d.published[decorator])
    ensures WroteTerminal(d, decorator) ==> decorator !in TickInvokes(c, d, m)
  {
    hide Reach, MainGraph, Accepted, Readers, Others, LoweredResult, TreeResult;
    LoweredLatched(c, Written(d), m, decorator);
    var l := LoweredResult(c, Written(d), m);
    if l.ok {
      TreeLatched(l.device, m, decorator);
    }
  }

  // Every operation.

  /** What lets go of an ended run's latch: a load that succeeds and lists its
      decorator, or a spawn that succeeds and lists it otherwise than it is. */
  ghost predicate Relists(c: Config, d: Device, op: Operation, ok: bool, decorator: Uuid) {
    match op
    case Loads(graph) => ok && decorator in IdsOf(graph.nodes)
    case Spawns(program, _) => ok && ListsAnew(FinishedResult(c, d).device.graph, program.nodes, decorator)
    case _ => false
  }

  /** The latch stays, unless the operation relists the decorator, which lets
      go of it. */
  ghost predicate KeepsUnless(relists: bool, d: Device, after: Device, decorator: Uuid) {
    && (!relists && decorator in DecoratorsOf(All(after)) ==> Latched(after, decorator))
    && (relists && WroteTerminal(d, decorator) ==> !LatchHolds(after, decorator))
  }

  lemma EditKeeps(c: Config, d: Device, diff: GraphDiff, decorator: Uuid)
    requires Stands(c, d) && decorator in DecoratorsOf(All(d)) && Latched(d, decorator)
    ensures KeepsUnless(false, d, ApplyResult(c, d, diff).device, decorator)
  {
    hide Reach, MainGraph, Accepted, Readers, Others, FinishedResult, ApplyNow;
    DecoratorIsNotRunner(c, d, decorator);
    FinishedStands(c, d);
    FinishedLatched(c, d, decorator);
    var f := FinishedResult(c, d);
    ApplyLists(c, f.device, diff);
    if f.ok && decorator in DecoratorsOf(All(f.device)) {
      ApplyLatched(c, f.device, diff, decorator);
    }
  }

  lemma ApplyLists(c: Config, d: Device, diff: GraphDiff)
    ensures All(ApplyNow(c, d, diff).device) == All(d) && ApplyNow(c, d, diff).device.published == d.published
  {
    hide Reach, MainGraph, Accepted, Readers, Others;
  }

  lemma LoadLists(c: Config, d: Device, graph: Graph)
    ensures All(LoadNow(c, d, graph).device) == All(d) && LoadNow(c, d, graph).device.published == d.published
    ensures !LoadNow(c, d, graph).ok ==> LoadNow(c, d, graph).device == d
  {
    hide Reach, MainGraph, Accepted, Readers, Others, Loadable;
  }

  lemma LoadKeeps(c: Config, d: Device, graph: Graph, decorator: Uuid)
    requires Stands(c, d) && decorator in DecoratorsOf(All(d)) && Latched(d, decorator)
    requires decorator in DecoratorsOf(All(LoadResult(c, d, graph).device))
    ensures var r := LoadResult(c, d, graph);
            KeepsUnless(r.ok && decorator in IdsOf(graph.nodes), d, r.device, decorator)
  {
    hide Reach, MainGraph, Accepted, Readers, Others, FinishedResult, LoadNow;
    DecoratorIsNotRunner(c, d, decorator);
    FinishedStands(c, d);
    FinishedLists(c, d);
    FinishedLatched(c, d, decorator);
    var f := FinishedResult(c, d);
    LoadLists(c, f.device, graph);
    if f.ok && LoadNow(c, f.device, graph).ok {
      LoadLatched(c, f.device, graph, decorator);
    }
  }

  lemma GraftLists(c: Config, d: Device, fragment: seq<Node>, run: Run)
    ensures var r := GraftResult(c, d, fragment, run);
            && r.device.published == d.published
            && All(r.device) == (if r.ok then All(d) + {run} else All(d)) && (!r.ok ==> r.device == d)
  {
    hide Reach, MainGraph, Accepted, Readers, Others;
    OneMoreRun(d.runs, d.finished, run);
  }

  lemma GraftKeeps(c: Config, d: Device, fragment: seq<Node>, run: Run, decorator: Uuid)
    requires Stands(c, d) && Latched(d, decorator) && decorator != run.decorator
    requires IdsOf(fragment) !! IdsOf(d.graph.nodes)
    ensures var after := GraftResult(c, d, fragment, run).device;
            decorator in DecoratorsOf(All(after)) ==> Latched(after, decorator)
  {
    hide Reach, MainGraph, Accepted, Readers, Others, GraftResult;
    GraftLists(c, d, fragment, run);
    if decorator in DecoratorsOf(All(d)) {
      GraftLatched(c, d, fragment, run, decorator);
    }
  }

  lemma CallIds(run: Run, id: Uuid, call: Value)
    ensures IdsOf(CallFragment(run, id, call)) == {id, run.decorator}
  {
    var fragment := CallFragment(run, id, call);
    assert fragment[0].id == id && fragment[1].id == run.decorator;
  }

  lemma CallKeeps(c: Config, d: Device, run: Run, id: Uuid, call: Value, decorator: Uuid)
    requires Stands(c, d) && decorator in DecoratorsOf(All(d)) && Latched(d, decorator)
    requires Untaken(d, run.decorator) && id !in IdsOf(d.graph.nodes)
    ensures KeepsUnless(false, d, SpawnResult(c, d, run, id, call).device, decorator)
  {
    hide Reach, MainGraph, Accepted, Readers, Others, FinishedResult, GraftResult, CallFragment, LatchHolds;
    DecoratorIsNotRunner(c, d, decorator);
    FinishedStands(c, d);
    FinishedLatched(c, d, decorator);
    FinishedNodes(c, d);
    CallIds(run, id, call);
    GraftKeeps(c, FinishedResult(c, d).device, CallFragment(run, id, call), run, decorator);
  }

  lemma FragmentKeeps(c: Config, d: Device, graph: Graph, run: Run, decorator: Uuid)
    requires Stands(c, d) && Latched(d, decorator) && graph.root.Some? && IdsOf(graph.nodes) !! IdsOf(d.graph.nodes)
    requires run.decorator !in IdsOf(d.graph.nodes) && decorator in DecoratorsOf(All(d))
    ensures var after := GraftResult(c, d, GraphFragment(graph, run), run).device;
            decorator in DecoratorsOf(All(after)) ==> Latched(after, decorator)
    ensures !ListsAnew(d.graph, graph.nodes, decorator)
  {
    hide Reach, MainGraph, Accepted, Readers, Others, GraftResult, LatchHolds, GraphFragment;
    DecoratorIsNotRunner(c, d, decorator);
    FragmentIds(graph, run);
    GraftKeeps(c, d, GraphFragment(graph, run), run, decorator);
    assert forall n :: n in graph.nodes ==> n.id in IdsOf(graph.nodes);
  }

  lemma SpawnKeeps(c: Config, d: Device, graph: Graph, run: Run, r: Result, decorator: Uuid)
    requires Stands(c, d) && Latched(d, decorator) && graph.root.Some? && SpawnsNow(c, d, graph, run, r)
    requires run.decorator !in IdsOf(d.graph.nodes) && decorator in DecoratorsOf(All(d))
    ensures KeepsUnless(r.ok && ListsAnew(d.graph, graph.nodes, decorator), d, r.device, decorator)
  {
    hide Reach, MainGraph, Accepted, Others, GraftResult, RespawnResult, LatchHolds, Latched, Stands, Respawning,
         ListsAnew, GraphFragment, All;
    var at := RunRooted(d.graph, d.runs, graph.root.value);
    if at < |d.runs| {
      var diff :| Respawning(c, d, at, graph, diff) && r == RespawnResult(c, d, at, graph, diff);
      RespawnLatched(c, d, at, graph, diff, decorator);
    } else if IdsOf(graph.nodes) !! IdsOf(d.graph.nodes) {
      FragmentKeeps(c, d, graph, WithDetached(run, graph), decorator);
    }
  }

  lemma FragmentIds(graph: Graph, run: Run)
    requires graph.root.Some?
    ensures IdsOf(GraphFragment(graph, run)) == IdsOf(graph.nodes) + {run.decorator}
  {
    var n := DecoratorNode(run.decorator, run.status, graph.root.value);
    assert forall m :: m in graph.nodes + [n] <==> m in graph.nodes || m == n;
  }

  lemma GraphKeeps(c: Config, d: Device, graph: Graph, run: Run, r: Result, decorator: Uuid)
    requires Stands(c, d) && decorator in DecoratorsOf(All(d)) && Latched(d, decorator)
    requires Untaken(d, run.decorator) && run.decorator !in IdsOf(graph.nodes) && SpawnsGraph(c, d, graph, run, r)
    requires decorator in DecoratorsOf(All(r.device))
    ensures KeepsUnless(r.ok && ListsAnew(FinishedResult(c, d).device.graph, graph.nodes, decorator), d, r.device,
                        decorator)
  {
    hide Reach, MainGraph, Accepted, Others, FinishedResult, LatchHolds, Latched, IsTree, ReadsWithin, SpawnsNow,
         ListsAnew, ChildrenOf, DetachedOf, Hangs;
    DecoratorIsNotRunner(c, d, decorator);
    var f := FinishedResult(c, d);
    FinishedStands(c, d);
    HangsUnique(c, d);
    FinishedLists(c, d);
    FinishedLatched(c, d, decorator);
    FinishedNodes(c, d);
    if Spawnable(c, graph) && f.ok {
      SpawnLists(c, f.device, graph, run, r);
      SpawnKeeps(c, f.device, graph, run, r, decorator);
    }
  }

  lemma RespawnLists(c: Config, d: Device, at: nat, graph: Graph, diff: GraphDiff)
    requires at < |d.runs| && graph.root.Some?
    ensures var after := RespawnResult(c, d, at, graph, diff).device;
            after.published == d.published && DecoratorsOf(All(after)) == DecoratorsOf(All(d))
  {
    hide Reach, MainGraph, Accepted, Restarted, Applied, NamesItsOwn, Parentless;
    RestAndOne(d, at, WithDetached(d.runs[at], graph));
  }

  /** A spawn brings at most its own decorator. */
  lemma SpawnLists(c: Config, d: Device, graph: Graph, run: Run, r: Result)
    requires graph.root.Some? && SpawnsNow(c, d, graph, run, r)
    ensures r.device.published == d.published
    ensures DecoratorsOf(All(r.device)) <= DecoratorsOf(All(d)) + {run.decorator}
  {
    hide Reach, MainGraph, Accepted, RespawnResult, GraftResult, Respawning, All, Parentless;
    var at := RunRooted(d.graph, d.runs, graph.root.value);
    if at < |d.runs| {
      var diff :| Respawning(c, d, at, graph, diff) && r == RespawnResult(c, d, at, graph, diff);
      assert at < |d.runs| && graph.root.Some?;
      RespawnLists(c, d, at, graph, diff);
    } else if IdsOf(graph.nodes) !! IdsOf(d.graph.nodes) {
      GraftLists(c, d, GraphFragment(graph, WithDetached(run, graph)), WithDetached(run, graph));
      RunsGrow(All(d), WithDetached(run, graph));
    }
  }

  /**
   An operation keeps the latch of an ended run's decorator exactly when it is
   no load that succeeds and lists the decorator, and no spawn that succeeds
   and lists it otherwise than it is.
   */
  lemma StepLatches(c: Config, d: Device, op: Operation, r: Result, decorator: Uuid)
    requires Stands(c, d) && Steps(c, d, op, r) && MakesNewIds(d, op)
    requires HasEnded(d, decorator) && Latched(d, decorator) && decorator in DecoratorsOf(All(r.device))
    ensures LatchHolds(r.device, decorator) <==> !Relists(c, d, op, r.ok, decorator)
    ensures Latched(r.device, decorator) <==> !Relists(c, d, op, r.ok, decorator)
  {
    StepKeeps(c, d, op, r, decorator);
  }

  lemma StepKeeps(c: Config, d: Device, op: Operation, r: Result, decorator: Uuid)
    requires Stands(c, d) && Steps(c, d, op, r) && MakesNewIds(d, op)
    requires decorator in DecoratorsOf(All(d)) && Latched(d, decorator) && decorator in DecoratorsOf(All(r.device))
    ensures KeepsUnless(Relists(c, d, op, r.ok, decorator), d, r.device, decorator)
  {
    hide Reach, MainGraph, Accepted, Readers, Others, FinishedResult, LatchHolds, TickResult, HaltResult, ApplyResult,
         LoadResult;
    DecoratorIsNotRunner(c, d, decorator);
    match op
    case Edits(diff) => EditKeeps(c, d, diff, decorator);
    case Loads(graph) => LoadKeeps(c, d, graph, decorator);
    case SpawnsCall(run, id, call) => CallKeeps(c, d, run.(detached := {}), id, call, decorator);
    case Spawns(program, run) => GraphKeeps(c, d, program, run, r, decorator);
    case Halts(task) => HaltLatched(c, d, task, decorator);
    case Ticks(meets) => TickLatched(c, d, meets, decorator);
  }

  // Every run of operations.

  /** No operation rewrites an ended run's status, and no tick invokes its
      program, while its latch holds. */
  lemma StepPublishes(c: Config, d: Device, op: Operation, r: Result, decorator: Uuid)
    requires Stands(c, d) && Steps(c, d, op, r) && HasEnded(d, decorator) && Latched(d, decorator)
    ensures decorator in r.device.published && r.device.published[decorator] == d.published[decorator]
    ensures op.Ticks? ==> decorator !in TickInvokes(c, d, op.meets)
  {
    hide Reach, MainGraph, Accepted, Others, FinishedResult, LatchHolds, TickResult, HaltResult, TickInvokes, ApplyNow,
         LoadNow, GraftResult, SpawnsNow, Spawnable;
    DecoratorIsNotRunner(c, d, decorator);
    FinishedLists(c, d);
    var f := FinishedResult(c, d);
    match op
    case Edits(diff) => ApplyLists(c, f.device, diff);
    case Loads(graph) => LoadLists(c, f.device, graph);
    case SpawnsCall(run, id, call) =>
      GraftLists(c, f.device, CallFragment(run.(detached := {}), id, call), run.(detached := {}));
    case Spawns(program, run) => SpawnPublishes(c, d, program, run, r);
    case Halts(task) => HaltPublishes(c, d, task);
    case Ticks(meets) => TickLatched(c, d, meets, decorator);
  }

  lemma HaltPublishes(c: Config, d: Device, task: Uuid)
    ensures HaltResult(c, d, task).device.published == d.published
  {
    hide Reach, MainGraph, Accepted;
  }

  lemma SpawnPublishes(c: Config, d: Device, graph: Graph, run: Run, r: Result)
    requires SpawnsGraph(c, d, graph, run, r)
    ensures r.device.published == d.published
  {
    hide Reach, MainGraph, Accepted, IsTree, ReadsWithin, FinishedResult, SpawnsNow;
    FinishedLists(c, d);
    var f := FinishedResult(c, d);
    if Spawnable(c, graph) && f.ok {
      SpawnLists(c, f.device, graph, run, r);
    }
  }

  /** An operation that does not relist the decorator, whose run stays. */
  ghost function Staying(c: Config, decorator: Uuid): (Device, Operation, Device) -> bool {
    (d, op, after) => MakesNewIds(d, op) && decorator in DecoratorsOf(All(after)) && Spares(c, d, op, after, decorator)
  }

  ghost predicate Spares(c: Config, d: Device, op: Operation, after: Device, decorator: Uuid) {
    exists ok :: Steps(c, d, op, Result(after, ok)) && !Relists(c, d, op, ok, decorator)
  }

  ghost predicate EndedAs(c: Config, d: Device, decorator: Uuid, status: Status) {
    Stands(c, d) && HasEnded(d, decorator) && Latched(d, decorator) && d.published[decorator] == status
  }

  lemma StayingEnded(c: Config, d: Device, op: Operation, after: Device, decorator: Uuid, status: Status)
    requires EndedAs(c, d, decorator, status) && Staying(c, decorator)(d, op, after)
    ensures EndedAs(c, after, decorator, status)
    ensures op.Ticks? ==> decorator !in TickInvokes(c, d, op.meets)
  {
    hide Stands, Latched, Relists, MakesNewIds, Steps, TickInvokes;
    var ok :| Steps(c, d, op, Result(after, ok)) && !Relists(c, d, op, ok, decorator);
    StepStands(c, d, op, Result(after, ok));
    StepKeeps(c, d, op, Result(after, ok), decorator);
    StepPublishes(c, d, op, Result(after, ok), decorator);
  }

  lemma EndedThroughout(c: Config, ds: seq<Device>, ops: seq<Operation>, i: nat, j: nat, k: nat, decorator: Uuid,
                        status: Status)
    requires StepsFrom(Staying(c, decorator), ds, ops, i, j) && i <= k <= j && EndedAs(c, ds[i], decorator, status)
    ensures EndedAs(c, ds[k], decorator, status)
  {
    var inv := (d: Device) => EndedAs(c, d, decorator, status);
    forall d, op, after | inv(d) && Staying(c, decorator)(d, op, after) ensures inv(after) {
      StayingEnded(c, d, op, after, decorator, status);
    }
    Always(inv, Staying(c, decorator), ds, ops, i, j, k);
  }

  /**
   Once a run's decorator has written a terminal status, no later tick invokes
   its program or writes its status otherwise, through any operations while
   the run stays, if none relists the decorator.
   */
  lemma StaysLatched(c: Config, ds: seq<Device>, ops: seq<Operation>, i: nat, j: nat, decorator: Uuid)
    requires StepsFrom(Staying(c, decorator), ds, ops, i, j)
    requires Stands(c, ds[i]) && HasEnded(ds[i], decorator) && Latched(ds[i], decorator)
    ensures HasEnded(ds[j], decorator) && ds[j].published[decorator] == ds[i].published[decorator]
    ensures forall k: nat :: i <= k < j && ops[k].Ticks? ==> decorator !in TickInvokes(c, ds[k], ops[k].meets)
  {
    hide Stands, Latched, TickInvokes;
    var status := ds[i].published[decorator];
    EndedThroughout(c, ds, ops, i, j, j, decorator, status);
    forall k: nat | i <= k < j && ops[k].Ticks? ensures decorator !in TickInvokes(c, ds[k], ops[k].meets) {
      EndedThroughout(c, ds, ops, i, j, k, decorator, status);
      assert StepAt(Staying(c, decorator), ds, ops, k);
      StayingEnded(c, ds[k], ops[k], ds[k + 1], decorator, status);
    }
  }

  /** An ended decorator set to start afresh is invoked by the next tick that
      lowers the graph and reaches it. */
  lemma AfreshIsInvoked(c: Config, d: Device, m: Meets, decorator: Uuid)
    requires d.dirty && decorator in d.afresh && d.finished == [] && decorator in DecoratorsOf(All(d))
    requires m.haltsWritten && m.revisionWritten && m.lowers && m.revisionRewritten
    ensures decorator in TickInvokes(c, d, m) <==> OutcomeOf(m, decorator) != Unreached
  {
    hide Reach, MainGraph, Accepted;
    assert FinishedResult(c, Written(d)) == Result(Written(d), true);
    assert decorator in Carried(Written(d)) && Carried(Written(d))[decorator] == None;
  }

  // How a decorator comes to be latched.

  /** Every run's decorator is. */
  ghost predicate AllLatched(d: Device) {
    forall decorator :: decorator in DecoratorsOf(All(d)) ==> Latched(d, decorator)
  }

  lemma InitialLatched(c: Config)
    ensures Stands(c, Initial(c)) && AllLatched(Initial(c))
  {
    InitialStands(c);
    assert All(Initial(c)) == {};
  }

  /** An operation that relists no run's decorator. */
  ghost function RelistingNone(c: Config): (Device, Operation, Device) -> bool {
    (d, op, after) => MakesNewIds(d, op) && SparesAll(c, d, op, after)
  }

  ghost predicate SparesAll(c: Config, d: Device, op: Operation, after: Device) {
    exists ok :: Steps(c, d, op, Result(after, ok))
                 && forall decorator :: decorator in DecoratorsOf(All(d)) ==> !Relists(c, d, op, ok, decorator)
  }

  lemma CallBrings(c: Config, d: Device, run: Run, id: Uuid, call: Value)
    requires Stands(c, d) && Untaken(d, run.decorator) && run.detached == {}
    requires id !in IdsOf(d.graph.nodes) && id != run.decorator
    ensures var r := SpawnResult(c, d, run, id, call);
            && DecoratorsOf(All(r.device)) <= DecoratorsOf(All(d)) + {run.decorator}
            && (run.decorator in DecoratorsOf(All(r.device)) ==> Latched(r.device, run.decorator))
  {
    hide Reach, MainGraph, Accepted, Readers, Others, FinishedResult, GraftResult, LatchHolds, Latched, IsFragment,
         CallFragment;
    var f := FinishedResult(c, d);
    FinishedStands(c, d);
    FinishedUntaken(c, d, run.decorator);
    FinishedNodes(c, d);
    FinishedLists(c, d);
    UntakenIsNone(c, d, run.decorator);
    if f.ok {
      CallBringsNow(c, f.device, run, id, call);
    }
  }

  lemma CallBringsNow(c: Config, d: Device, run: Run, id: Uuid, call: Value)
    requires Stands(c, d) && run.decorator !in d.published && run.detached == {}
    requires id !in IdsOf(d.graph.nodes) && run.decorator !in IdsOf(d.graph.nodes) && id != run.decorator
    ensures var r := GraftResult(c, d, CallFragment(run, id, call), run);
            && DecoratorsOf(All(r.device)) <= DecoratorsOf(All(d)) + {run.decorator}
            && (run.decorator in DecoratorsOf(All(r.device)) ==> Latched(r.device, run.decorator))
  {
    hide Reach, GraftResult, Latched, IsFragment, CallFragment, Stands, All;
    UntakenIsNone(c, d, run.decorator);
    GraftLists(c, d, CallFragment(run, id, call), run);
    RunsGrow(All(d), run);
    CallIsFragment(d.graph, run, id, call);
    if GraftResult(c, d, CallFragment(run, id, call), run).ok {
      CallIsLatched(c, d, run, id, call);
    }
  }

  lemma UntakenIsNone(c: Config, d: Device, id: Uuid)
    requires Stands(c, d) && id !in IdsOf(d.graph.nodes)
    ensures id !in DecoratorsOf(All(d))
  {
    if id in DecoratorsOf(All(d)) {
      DecoratorIsNotRunner(c, d, id);
    }
  }

  lemma CallIsLatched(c: Config, d: Device, run: Run, id: Uuid, call: Value)
    requires Stands(c, d) && IsFragment(d.graph, CallFragment(run, id, call), run) && run.decorator !in d.published
    requires GraftResult(c, d, CallFragment(run, id, call), run).ok
    ensures Latched(GraftResult(c, d, CallFragment(run, id, call), run).device, run.decorator)
  {
    hide Reach, GraftResult, IsFragment, Latched, Stands;
    NewLatched(c, d, [CallNode(id, call)], id, run);
  }

  lemma GraphBrings(c: Config, d: Device, graph: Graph, run: Run, r: Result)
    requires Stands(c, d) && Untaken(d, run.decorator) && run.decorator !in IdsOf(graph.nodes)
    requires SpawnsGraph(c, d, graph, run, r)
    ensures DecoratorsOf(All(r.device)) <= DecoratorsOf(All(d)) + {run.decorator}
    ensures run.decorator in DecoratorsOf(All(r.device)) ==> Latched(r.device, run.decorator)
  {
    hide Reach, MainGraph, Accepted, Others, FinishedResult, LatchHolds, Latched, IsTree, ReadsWithin, SpawnsNow;
    var f := FinishedResult(c, d);
    FinishedStands(c, d);
    FinishedUntaken(c, d, run.decorator);
    FinishedNodes(c, d);
    FinishedLists(c, d);
    UntakenIsNone(c, d, run.decorator);
    if Spawnable(c, graph) && f.ok {
      SpawnLists(c, f.device, graph, run, r);
      UntakenIsNone(c, f.device, run.decorator);
      SpawnBrings(c, f.device, graph, run, r);
    }
  }

  lemma SpawnBrings(c: Config, d: Device, graph: Graph, run: Run, r: Result)
    requires Stands(c, d) && graph.root.Some? && graph.root.value in IdsOf(graph.nodes)
    requires IsTree(graph.nodes, graph.root.value, c.native) && SpawnsNow(c, d, graph, run, r)
    requires run.decorator !in IdsOf(graph.nodes) + IdsOf(d.graph.nodes) && run.decorator !in d.published
    requires run.decorator !in DecoratorsOf(All(d))
    ensures run.decorator in DecoratorsOf(All(r.device)) ==> Latched(r.device, run.decorator)
  {
    hide Reach, MainGraph, Accepted, GraftResult, RespawnResult, Latched, Stands, Respawning, All, IsTree, IsFragment,
         Parentless, ClosedUnder;
    var at := RunRooted(d.graph, d.runs, graph.root.value);
    var kept := WithDetached(run, graph);
    if at < |d.runs| {
      var diff :| Respawning(c, d, at, graph, diff) && r == RespawnResult(c, d, at, graph, diff);
      RespawnLists(c, d, at, graph, diff);
    } else if IdsOf(graph.nodes) !! IdsOf(d.graph.nodes) {
      HangsUnique(c, d);
      GraftLists(c, d, GraphFragment(graph, kept), kept);
      GraphIsFragment(d.graph, graph, run, c.native);
      if r.ok {
        NewLatched(c, d, graph.nodes, graph.root.value, kept);
      }
    }
  }

  /** What an operation that relists none leaves latched, and what it brings. */
  lemma StepAllLatched(c: Config, d: Device, op: Operation, r: Result)
    requires Stands(c, d) && AllLatched(d) && Steps(c, d, op, r) && MakesNewIds(d, op)
    requires forall decorator :: decorator in DecoratorsOf(All(d)) ==> !Relists(c, d, op, r.ok, decorator)
    ensures AllLatched(r.device)
  {
    hide Stands, Latched, Relists, Steps, MakesNewIds;
    forall decorator | decorator in DecoratorsOf(All(r.device)) ensures Latched(r.device, decorator) {
      if decorator in DecoratorsOf(All(d)) {
        StepKeeps(c, d, op, r, decorator);
      } else {
        StepBrings(c, d, op, r, decorator);
      }
    }
  }

  lemma StepBrings(c: Config, d: Device, op: Operation, r: Result, decorator: Uuid)
    requires Stands(c, d) && Steps(c, d, op, r) && MakesNewIds(d, op)
    requires decorator in DecoratorsOf(All(r.device)) && decorator !in DecoratorsOf(All(d))
    ensures Latched(r.device, decorator)
  {
    hide Reach, MainGraph, Accepted, Others, FinishedResult, Latched, TickResult, HaltResult, ApplyNow, LoadNow,
         SpawnsGraph, SpawnResult;
    FinishedLists(c, d);
    var f := FinishedResult(c, d);
    assert DecoratorsOf(All(f.device)) <= DecoratorsOf(All(d));
    match op
    case Edits(diff) => ApplyLists(c, f.device, diff);
    case Loads(graph) => LoadLists(c, f.device, graph);
    case SpawnsCall(run, id, call) => CallBrings(c, d, run.(detached := {}), id, call);
    case Spawns(program, run) => GraphBrings(c, d, program, run, r);
    case Halts(task) => HaltLists(c, d, task);
    case Ticks(meets) => TickLists(c, d, meets);
  }

  lemma HaltLists(c: Config, d: Device, task: Uuid)
    ensures DecoratorsOf(All(HaltResult(c, d, task).device)) <= DecoratorsOf(All(d))
  {
    hide Reach, MainGraph, Accepted, Pruned;
    var at := RunOf(d.runs, task);
    if at < |d.runs| {
      OneTakenOut(d.runs, d.finished, at);
    }
  }

  lemma TickLists(c: Config, d: Device, m: Meets)
    ensures DecoratorsOf(All(TickResult(c, d, m).device)) <= DecoratorsOf(All(d))
  {
    hide Reach, MainGraph, Accepted, FinishedResult, TreeResult;
    FinishedLists(c, Written(d));
    var l := LoweredResult(c, Written(d), m);
    assert All(l.device) <= All(d);
    if l.ok {
      TreeLists(l.device, m);
    }
  }

  lemma TreeLists(d: Device, m: Meets)
    ensures All(TreeResult(d, m).device) == All(d)
  {
    SweptAlike(TickedTree(d, m));
  }

  /** Every run's decorator is latched through any operations that relist none. */
  lemma AlwaysLatched(c: Config, ds: seq<Device>, ops: seq<Operation>, i: nat, j: nat)
    requires StepsFrom(RelistingNone(c), ds, ops, i, j) && Stands(c, ds[i]) && AllLatched(ds[i])
    ensures Stands(c, ds[j]) && AllLatched(ds[j])
  {
    var inv := (d: Device) => Stands(c, d) && AllLatched(d);
    forall d, op, after | inv(d) && RelistingNone(c)(d, op, after) ensures inv(after) {
      RelistingNoneKeeps(c, d, op, after);
    }
    Always(inv, RelistingNone(c), ds, ops, i, j, j);
  }

  lemma RelistingNoneKeeps(c: Config, d: Device, op: Operation, after: Device)
    requires Stands(c, d) && AllLatched(d) && RelistingNone(c)(d, op, after)
    ensures Stands(c, after) && AllLatched(after)
  {
    hide Stands, Latched, Relists, Steps, MakesNewIds, AllLatched;
    var ok :| Steps(c, d, op, Result(after, ok))
              && forall decorator :: decorator in DecoratorsOf(All(d)) ==> !Relists(c, d, op, ok, decorator);
    StepStands(c, d, op, Result(after, ok));
    StepAllLatched(c, d, op, Result(after, ok));
  }

  /** While the runner alone holds the decorators, no operation that succeeds
      relists one. */
  lemma GuardedRelistsNone(c: Config, d: Device, op: Operation, r: Result, decorator: Uuid)
    requires Stands(c, d) && Orderly(d) && Guarded(c, d) && Steps(c, d, op, r) && MakesNewIds(d, op)
    requires decorator in DecoratorsOf(All(d)) && decorator in DecoratorsOf(All(r.device))
    ensures !Relists(c, d, op, r.ok, decorator)
  {
    hide Reach, MainGraph, Accepted, FinishedResult, Guarded, LoadNow, Spawnable, SpawnsNow, ListsAnew, Stands, Orderly;
    FinishedStands(c, d);
    FinishedGuarded(c, d);
    match op
    case Loads(graph) =>
      if r.ok {
        LoadRelistsNone(c, FinishedResult(c, d), graph, decorator);
      }
    case Spawns(program, run) =>
      DecoratorIsNotRunner(c, d, decorator);
      if r.ok {
        SpawnRelistsNone(c, d, program, run, r, decorator);
      }
    case _ =>
  }

  lemma LoadRelistsNone(c: Config, f: Result, graph: Graph, decorator: Uuid)
    requires Stands(c, f.device) && Guarded(c, f.device)
    requires decorator in DecoratorsOf(All(LoadAfter(c, f, graph).device)) && LoadAfter(c, f, graph).ok
    ensures decorator !in IdsOf(graph.nodes)
  {
    hide Reach, MainGraph, Accepted, Guarded, LoadNow, Stands, All;
    LoadLists(c, f.device, graph);
    LoadsNone(c, f.device, graph, decorator);
  }

  lemma SpawnRelistsNone(c: Config, d: Device, graph: Graph, run: Run, r: Result, decorator: Uuid)
    requires var f := FinishedResult(c, d).device; Stands(c, f) && Orderly(f) && Guarded(c, f)
    requires SpawnsGraph(c, d, graph, run, r) && r.ok
    requires decorator in DecoratorsOf(All(r.device)) && decorator != run.decorator
    ensures !ListsAnew(FinishedResult(c, d).device.graph, graph.nodes, decorator)
  {
    hide Reach, MainGraph, Accepted, FinishedResult, Guarded, SpawnsNow, ListsAnew, Stands, Orderly, IsTree,
         ReadsWithin, All;
    SpawnLists(c, FinishedResult(c, d).device, graph, run, r);
    SpawnsNone(c, FinishedResult(c, d).device, graph, run, r, decorator);
  }

  lemma LoadsNone(c: Config, d: Device, graph: Graph, decorator: Uuid)
    requires Stands(c, d) && Guarded(c, d) && LoadNow(c, d, graph).ok && decorator in DecoratorsOf(All(d))
    ensures decorator !in IdsOf(graph.nodes)
  {
    hide Reach, Accepted, MainGraph;
    HangingAreNodes(d.graph, c.runner, d.mainRoot, All(d));
    ReachGrows(Children(ById(d.graph.nodes)), RootSet(d.mainRoot), RootSet(d.mainRoot) + DecoratorsOf(All(d)));
    DecoratorsAreNotMain(d.graph, c.runner, d.mainRoot, All(d));
  }

  lemma SpawnsNone(c: Config, d: Device, graph: Graph, run: Run, r: Result, decorator: Uuid)
    requires Stands(c, d) && Orderly(d) && Guarded(c, d) && graph.root.Some? && SpawnsNow(c, d, graph, run, r) && r.ok
    requires decorator in DecoratorsOf(All(d))
    ensures !ListsAnew(d.graph, graph.nodes, decorator)
  {
    hide Reach, Accepted, MainGraph, GraftResult;
    var at := RunRooted(d.graph, d.runs, graph.root.value);
    DecoratorIsNotRunner(c, d, decorator);
    if at < |d.runs| {
      var diff :| Respawning(c, d, at, graph, diff) && r == RespawnResult(c, d, at, graph, diff);
      RespawnDoes(c, d, at, graph, diff);
      RestAndOne(d, at, d.runs[at]);
      HungApart(c, d, at);
      RunHoldsNoDecorator(d.graph, c.runner, d.mainRoot, SetOf(Rest(d, at)), d.runs[at]);
    }
  }
}
