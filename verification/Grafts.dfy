/**
 A run's fragment grafted onto the scaffold, and pruned from it.

 A fragment is a run's program, the calls beside it and the decorator over it,
 all of them new nodes.  Grafted, it leaves the main behavior as it was
 (`GraftKeepsMain`).

 Pruned, it leaves whole exactly when no node outside it holds any of it
 (`PrunedWhole`).  Grafting it and pruning it give back the very graph exactly
 when no node reads any of it either (`GraftThenPrune`).
 */
module Grafts {
  import opened Integers
  import opened Digraphs
  import opened Graphs
  import opened GraphEdits
  import opened Scaffolds

  // Grafting.

  /** The nodes name no other children than `ids`. */
  predicate ClosedUnder(nodes: seq<Node>, ids: set<Uuid>) {
    forall n :: n in nodes ==> SetOf(ChildList(n)) <= ids
  }

  /** A fragment of new nodes, closed, all of them the run's. */
  ghost predicate IsFragment(g: Graph, fragment: seq<Node>, run: Run) {
    && UniqueIds(fragment) && IdsOf(fragment) !! IdsOf(g.nodes)
    && ClosedUnder(fragment, IdsOf(fragment))
    && run.decorator in IdsOf(fragment)
    && IdsOf(fragment) == Reach(Children(ById(fragment)), {run.decorator}) + run.detached
  }

  /** The scaffold with a fragment beside it and the runner set again. */
  function Grafted(g: Graph, fragment: seq<Node>, rn: Node): Graph {
    Graph(g.root, SetNode(g.nodes, rn) + fragment)
  }

  lemma {:induction false} SetAllFresh(nodes: seq<Node>, fragment: seq<Node>)
    requires UniqueIds(fragment) && IdsOf(fragment) !! IdsOf(nodes)
    ensures SetAll(nodes, fragment) == nodes + fragment
    decreases |fragment|
  {
    if fragment == [] {
      assert nodes + fragment == nodes;
    } else {
      var init, last := fragment[..|fragment| - 1], fragment[|fragment| - 1];
      UniqueSplits(fragment);
      IdsSplit(fragment);
      SetAllFresh(nodes, init);
      assert IdsOf(nodes + init) == IdsOf(nodes) + IdsOf(init);
      assert nodes + fragment == nodes + init + [last];
    }
  }

  lemma OnlySets(g: Graph, remove: seq<Uuid>, set_: seq<Node>)
    ensures Applied(g, GraphDiff(remove, set_, [], [], None))
            == Some(Graph(if g.root.Some? && g.root.value in SetOf(remove) then None else g.root,
                          SetAll(Without(g.nodes, SetOf(remove)), set_)))
  {
    var diff := GraphDiff(remove, set_, [], [], None);
    var nodes := SetAll(Without(g.nodes, SetOf(remove)), set_);
    forall n: Node ensures Rebound(n, diff) == n {
      assert UnboundOf(n, []) == n.bind;
    }
    assert ReboundAll(nodes, diff) == nodes;
  }

  lemma RemovesNothing(g: Graph, set_: seq<Node>, remove: seq<Uuid>)
    requires SetOf(remove) == {}
    ensures Applied(g, GraphDiff(remove, set_, [], [], None)) == Some(Graph(g.root, SetAll(g.nodes, set_)))
  {
    OnlySets(g, remove, set_);
    WithoutNothing(g.nodes);
  }

  /** Setting a fragment and the runner grafts the fragment. */
  lemma GraftMakes(g: Graph, fragment: seq<Node>, run: Run, rn: Node)
    requires UniqueIds(g.nodes) && rn.id in IdsOf(g.nodes) && IsFragment(g, fragment, run)
    ensures Applied(g, GraphDiff([], fragment + [rn], [], [], None)) == Some(Grafted(g, fragment, rn))
  {
    OnlySets(g, [], fragment + [rn]);
    assert SetOf<Uuid>([]) == {};
    WithoutNothing(g.nodes);
    var all := fragment + [rn];
    assert all[..|all| - 1] == fragment;
    SetAllFresh(g.nodes, fragment);
    SetNodeBefore(g.nodes, fragment, rn);
  }

  lemma SetNodeBefore(nodes: seq<Node>, fragment: seq<Node>, rn: Node)
    requires rn.id in IdsOf(nodes) && rn.id !in IdsOf(fragment)
    ensures SetNode(nodes + fragment, rn) == SetNode(nodes, rn) + fragment
  {
    var all := nodes + fragment;
    assert IdsOf(all) == IdsOf(nodes) + IdsOf(fragment);
    forall i | |nodes| <= i < |all| ensures all[i] == fragment[i - |nodes|] && all[i].id != rn.id {
      assert fragment[i - |nodes|] in fragment;
    }
  }

  lemma GraftedHolds(g: Graph, fragment: seq<Node>, rn: Node)
    requires UniqueIds(g.nodes) && UniqueIds(fragment) && IdsOf(fragment) !! IdsOf(g.nodes) && rn.id in IdsOf(g.nodes)
    ensures UniqueIds(Grafted(g, fragment, rn).nodes)
    ensures IdsOf(Grafted(g, fragment, rn).nodes) == IdsOf(g.nodes) + IdsOf(fragment)
    ensures forall n :: n in g.nodes && n.id != rn.id ==> n in Grafted(g, fragment, rn).nodes
    ensures forall n :: n in fragment ==> n in Grafted(g, fragment, rn).nodes
    ensures rn in Grafted(g, fragment, rn).nodes
  {
    SetNodeHolds(g.nodes, rn);
    var set_, all := SetNode(g.nodes, rn), Grafted(g, fragment, rn).nodes;
    forall i, j | 0 <= i < j < |all| ensures all[i].id != all[j].id {
      if i < |set_| <= j {
        assert set_[i] in set_ && fragment[j - |set_|] in fragment;
        assert all[i].id in IdsOf(set_) && all[j].id in IdsOf(fragment);
      }
    }
  }

  /** Beside a fragment, what was reached from the old nodes is reached still,
      and the fragment from its decorator. */
  lemma GraftedReach(g: Graph, runner: Uuid, fragment: seq<Node>, run: Run, rn: Node, starts: set<Uuid>)
    requires UniqueIds(g.nodes) && runner in IdsOf(g.nodes) && IsFragment(g, fragment, run) && rn.id == runner
    requires Reach(Children(ById(g.nodes)), starts) <= IdsOf(g.nodes) - {runner}
    ensures var after := Children(ById(Grafted(g, fragment, rn).nodes));
            && Reach(after, starts) == Reach(Children(ById(g.nodes)), starts)
            && Reach(after, {run.decorator}) == Reach(Children(ById(fragment)), {run.decorator})
  {
    GraftedHolds(g, fragment, rn);
    var edges, alone, nodes := Children(ById(g.nodes)), Children(ById(fragment)), Grafted(g, fragment, rn).nodes;
    var after := Children(ById(nodes));
    forall id | id in Reach(edges, starts) ensures Next(after, id) == Next(edges, id) {
      var n :| n in g.nodes && n.id == id;
      NextOf(g.nodes, n);
      NextOf(nodes, n);
    }
    ReachSame(edges, after, starts);
    forall id | id in Reach(alone, {run.decorator}) ensures Next(after, id) == Next(alone, id) {
      assert id in IdsOf(fragment);
      var n :| n in fragment && n.id == id;
      NextOf(fragment, n);
      NextOf(nodes, n);
    }
    ReachSame(alone, after, {run.decorator});
  }

  /** What is not the main behavior's grows by the fragment. */
  lemma GraftedNotMain(g: Graph, runner: Uuid, mainRoot: Option<Uuid>, runs: set<Run>, fragment: seq<Node>, run: Run,
                       rn: Node)
    requires Hangs(g, runner, mainRoot, runs) && IsFragment(g, fragment, run) && rn.id == runner
    ensures NotMain(Children(ById(Grafted(g, fragment, rn).nodes)), runner, mainRoot, runs + {run})
            == NotMain(Children(ById(g.nodes)), runner, mainRoot, runs) + IdsOf(fragment)
  {
    var edges, after := Children(ById(g.nodes)), Children(ById(Grafted(g, fragment, rn).nodes));
    HangingReachesNodes(g, runner, mainRoot, runs);
    GraftedReach(g, runner, fragment, run, rn, RootSet(mainRoot));
    GraftedReach(g, runner, fragment, run, rn, DecoratorsOf(runs));
    GraftedHeld(edges, after, runner, mainRoot, runs, run, IdsOf(fragment), IdsOf(g.nodes));
  }

  lemma HangingReachesNodes(g: Graph, runner: Uuid, mainRoot: Option<Uuid>, runs: set<Run>)
    requires Hangs(g, runner, mainRoot, runs)
    ensures Reach(Children(ById(g.nodes)), RootSet(mainRoot)) <= IdsOf(g.nodes) - {runner}
    ensures Reach(Children(ById(g.nodes)), DecoratorsOf(runs)) <= IdsOf(g.nodes) - {runner}
  {
    HangingAreNodes(g, runner, mainRoot, runs);
    ReachJoins(Children(ById(g.nodes)), RootSet(mainRoot), DecoratorsOf(runs));
  }

  lemma GraftedHeld(edges: Edges<Uuid>, after: Edges<Uuid>, runner: Uuid, mainRoot: Option<Uuid>, runs: set<Run>,
                    run: Run, fragment: set<Uuid>, ids: set<Uuid>)
    requires Reach(after, RootSet(mainRoot)) == Reach(edges, RootSet(mainRoot)) <= ids && fragment !! ids
    requires Reach(after, DecoratorsOf(runs)) == Reach(edges, DecoratorsOf(runs))
    requires fragment == Reach(after, {run.decorator}) + run.detached
    ensures NotMain(after, runner, mainRoot, runs + {run}) == NotMain(edges, runner, mainRoot, runs) + fragment
  {
    RunsGrow(runs, run);
    ReachJoins(after, DecoratorsOf(runs), {run.decorator});
  }

  lemma RunsGrow(runs: set<Run>, run: Run)
    ensures DecoratorsOf(runs + {run}) == DecoratorsOf(runs) + {run.decorator}
    ensures DetachedOf(runs + {run}) == DetachedOf(runs) + run.detached
  {
  }

  /** A run grafted beside it leaves the main behavior as it was. */
  lemma GraftKeepsMain(g: Graph, runner: Uuid, mainRoot: Option<Uuid>, runs: set<Run>, fragment: seq<Node>, run: Run,
                       rn: Node)
    requires Hangs(g, runner, mainRoot, runs) && IsFragment(g, fragment, run) && rn.id == runner
    ensures MainGraph(Grafted(g, fragment, rn), runner, mainRoot, runs + {run}) == MainGraph(g, runner, mainRoot, runs)
  {
    GraftedNotMain(g, runner, mainRoot, runs, fragment, run, rn);
    var out := NotMain(Children(ById(g.nodes)), runner, mainRoot, runs);
    GraftedKept(g, fragment, rn, out);
  }

  lemma GraftedKept(g: Graph, fragment: seq<Node>, rn: Node, out: set<Uuid>)
    requires IdsOf(fragment) !! IdsOf(g.nodes) && rn.id in out && rn.id in IdsOf(g.nodes)
    ensures Kept(Grafted(g, fragment, rn).nodes, out + IdsOf(fragment)) == Kept(g.nodes, out)
  {
    var all := out + IdsOf(fragment);
    KeptSplits(SetNode(g.nodes, rn), fragment, all);
    KeptNone(fragment, all);
    forall i | 0 <= i < |g.nodes|
      ensures SetNode(g.nodes, rn)[i].id in all <==> g.nodes[i].id in out
      ensures g.nodes[i].id in out || SetNode(g.nodes, rn)[i] == g.nodes[i]
    {
      assert g.nodes[i] in g.nodes;
      assert g.nodes[i].id in IdsOf(g.nodes);
    }
    KeptAgree(SetNode(g.nodes, rn), g.nodes, all, out);
  }

  /** A tree's children are its nodes, which it reaches or no node holds. */
  lemma TreeIsClosed(nodes: seq<Node>, root: Uuid, native: set<Uuid>)
    requires IsTree(nodes, root, native)
    ensures ClosedUnder(nodes, IdsOf(nodes))
    ensures IdsOf(nodes) == Reach(Children(ById(nodes)), {root}) + Parentless(nodes, root)
  {
    ByIdKeys(nodes);
    forall n, child | n in nodes && child in ChildList(n) ensures child in IdsOf(nodes) {
      SlotsAreChildren(nodes, child);
    }
  }

  /** A tree and the calls beside it, under a decorator, are a fragment. */
  lemma TreeIsFragment(g: Graph, nodes: seq<Node>, root: Uuid, native: set<Uuid>, decorator: Node, run: Run)
    requires IsTree(nodes, root, native) && root in IdsOf(nodes) && IdsOf(nodes) !! IdsOf(g.nodes)
    requires decorator.id !in IdsOf(nodes) + IdsOf(g.nodes) && decorator.children == Some([root])
    requires run.decorator == decorator.id && run.detached == Parentless(nodes, root)
    ensures IsFragment(g, nodes + [decorator], run)
  {
    assert UniqueIds(nodes);
    TreeIsClosed(nodes, root, native);
    UnderDecorator(g, nodes, root, decorator, run);
  }

  lemma UnderDecorator(g: Graph, nodes: seq<Node>, root: Uuid, decorator: Node, run: Run)
    requires UniqueIds(nodes) && root in IdsOf(nodes) && IdsOf(nodes) !! IdsOf(g.nodes)
    requires ClosedUnder(nodes, IdsOf(nodes))
    requires IdsOf(nodes) == Reach(Children(ById(nodes)), {root}) + run.detached
    requires decorator.id !in IdsOf(nodes) + IdsOf(g.nodes) && decorator.children == Some([root])
    requires run.decorator == decorator.id
    ensures IsFragment(g, nodes + [decorator], run)
  {
    OneMoreNode(nodes, decorator);
    DecoratedReach(nodes, root, decorator);
    DecoratedIsClosed(nodes, root, decorator);
  }

  lemma DecoratedIsClosed(nodes: seq<Node>, root: Uuid, decorator: Node)
    requires ClosedUnder(nodes, IdsOf(nodes)) && root in IdsOf(nodes) && decorator.children == Some([root])
    ensures ClosedUnder(nodes + [decorator], IdsOf(nodes) + {decorator.id})
  {
    forall n | n in nodes + [decorator] ensures SetOf(ChildList(n)) <= IdsOf(nodes) + {decorator.id} {
      if n !in nodes {
        assert ChildList(n) == [root];
      }
    }
  }

  lemma OneMoreNode(nodes: seq<Node>, n: Node)
    requires UniqueIds(nodes) && n.id !in IdsOf(nodes)
    ensures UniqueIds(nodes + [n]) && IdsOf(nodes + [n]) == IdsOf(nodes) + {n.id}
  {
    var all := nodes + [n];
    assert all[..|all| - 1] == nodes;
    UniqueSplits(all);
    IdsSplit(all);
  }

  lemma DecoratedReach(nodes: seq<Node>, root: Uuid, decorator: Node)
    requires UniqueIds(nodes) && UniqueIds(nodes + [decorator]) && decorator.children == Some([root])
    requires Reach(Children(ById(nodes)), {root}) <= IdsOf(nodes)
    ensures Reach(Children(ById(nodes + [decorator])), {decorator.id})
            == {decorator.id} + Reach(Children(ById(nodes)), {root})
  {
    var all := nodes + [decorator];
    var edges, after := Children(ById(nodes)), Children(ById(all));
    NextOf(all, decorator);
    forall id | id in Reach(edges, {root}) ensures Next(after, id) == Next(edges, id) {
      var n :| n in nodes && n.id == id;
      NextOf(nodes, n);
      NextOf(all, n);
    }
    ReachSame(edges, after, {root});
    ReachOver(after, decorator.id, root);
  }

  /** Over one child, a node reaches itself and what the child does. */
  lemma ReachOver(edges: Edges<Uuid>, over: Uuid, root: Uuid)
    requires Next(edges, over) == [root]
    ensures Reach(edges, {over}) == {over} + Reach(edges, {root})
  {
    assert root in Next(edges, over);
    ReachGrows(edges, {root}, {over});
    var there := {over} + Reach(edges, {root});
    ReachIsLeast(edges, {over}, there);
  }

  // Pruning.

  /** What the nodes outside `leaving` lead to, and what the main root does. */
  ghost function HeldOutside(g: Graph, runner: Uuid, mainRoot: Option<Uuid>, leaving: set<Uuid>): set<Uuid> {
    Reach(Children(ById(g.nodes)), IdsOf(g.nodes) - {runner} - leaving + RootSet(mainRoot))
  }

  /** The nodes that leave with `gone`: theirs, and nothing else's. */
  ghost function Pruned(g: Graph, runner: Uuid, mainRoot: Option<Uuid>, gone: set<Run>): set<Uuid> {
    var leaving := HeldBy(Children(ById(g.nodes)), gone);
    leaving - HeldOutside(g, runner, mainRoot, leaving)
  }

  /** No node left but the runner names one pruned. */
  lemma NothingNamesPruned(g: Graph, runner: Uuid, mainRoot: Option<Uuid>, gone: set<Run>, n: Node, child: Uuid)
    requires UniqueIds(g.nodes) && n in g.nodes && n.id != runner && child in ChildList(n)
    requires n.id !in Pruned(g, runner, mainRoot, gone)
    ensures child !in Pruned(g, runner, mainRoot, gone)
  {
    var edges := Children(ById(g.nodes));
    NextOf(g.nodes, n);
    var leaving := HeldBy(edges, gone);
    assert n.id !in leaving ==> n.id in IdsOf(g.nodes) - {runner} - leaving + RootSet(mainRoot);
    assert n.id in HeldOutside(g, runner, mainRoot, leaving);
  }

  /** The scaffold once `remove` left it and the runner is set again. */
  function Left(g: Graph, remove: set<Uuid>, rn: Node): Graph {
    Graph(g.root, SetNode(Without(g.nodes, remove), rn))
  }

  lemma PruneMakes(g: Graph, remove: seq<Uuid>, rn: Node)
    requires g.root == Some(rn.id) && rn.id !in remove
    ensures Applied(g, GraphDiff(remove, [rn], [], [], None)) == Some(Left(g, SetOf(remove), rn))
  {
    OnlySets(g, remove, [rn]);
    var kept := Without(g.nodes, SetOf(remove));
    assert [rn][..0] == [];
    assert SetAll(kept, [rn]) == SetNode(kept, rn);
  }

  // Grafted, then pruned.

  lemma {:induction false} WithoutSplits(a: seq<Node>, b: seq<Node>, removed: set<Uuid>)
    ensures Without(a + b, removed) == Without(a, removed) + Without(b, removed)
    decreases |b|
  {
    if b == [] {
      assert a + b == a;
    } else {
      var init := b[..|b| - 1];
      assert (a + b)[..|a + b| - 1] == a + init;
      WithoutSplits(a, init, removed);
    }
  }

  lemma {:induction false} WithoutAll(nodes: seq<Node>, removed: set<Uuid>)
    requires IdsOf(nodes) <= removed
    ensures Without(nodes, removed) == []
    decreases |nodes|
  {
    if nodes != [] {
      IdsSplit(nodes);
      WithoutAll(nodes[..|nodes| - 1], removed);
    }
  }

  lemma {:induction false} WithoutUnread(nodes: seq<Node>, removed: set<Uuid>)
    requires forall n :: n in nodes ==> n.id !in removed && KeptBind(n.bind, removed) == n.bind
    ensures Without(nodes, removed) == nodes
    decreases |nodes|
  {
    if nodes != [] {
      WithoutUnread(nodes[..|nodes| - 1], removed);
    }
  }

  /** No node but the runner holds a node of the fragment, or the runner over
      it. */
  predicate NoneHolds(g: Graph, runner: Uuid, fragment: set<Uuid>) {
    forall n :: n in g.nodes && n.id != runner ==> SetOf(ChildList(n)) !! fragment + {runner}
  }

  /** A fragment is pruned whole exactly when nothing outside holds any of it. */
  lemma PrunedWhole(g: Graph, runner: Uuid, mainRoot: Option<Uuid>, runs: set<Run>, fragment: seq<Node>, run: Run,
                    rn: Node)
    requires Hangs(g, runner, mainRoot, runs) && IsFragment(g, fragment, run)
    requires rn.id == runner && run.decorator in ChildList(rn)
    ensures Pruned(Grafted(g, fragment, rn), runner, mainRoot, {run}) <= IdsOf(fragment)
    ensures Pruned(Grafted(g, fragment, rn), runner, mainRoot, {run}) == IdsOf(fragment)
            <==> NoneHolds(g, runner, IdsOf(fragment))
  {
    FragmentLeaves(g, runner, fragment, run, rn);
    OutsideStarts(g, runner, mainRoot, runs, fragment, rn);
    PrunedFrom(Grafted(g, fragment, rn), runner, mainRoot, {run}, IdsOf(fragment), IdsOf(g.nodes) - {runner});
    OutsideTells(g, runner, fragment, run, rn);
    WholeIsApart(IdsOf(fragment), Reach(Children(ById(Grafted(g, fragment, rn).nodes)), IdsOf(g.nodes) - {runner}),
                 Pruned(Grafted(g, fragment, rn), runner, mainRoot, {run}));
  }

  lemma WholeIsApart<T>(whole: set<T>, other: set<T>, left: set<T>)
    requires left == whole - other
    ensures left <= whole && (left == whole <==> other !! whole)
  {
  }

  lemma PrunedFrom(g: Graph, runner: Uuid, mainRoot: Option<Uuid>, gone: set<Run>, leaving: set<Uuid>,
                   starts: set<Uuid>)
    requires HeldBy(Children(ById(g.nodes)), gone) == leaving
    requires IdsOf(g.nodes) - {runner} - leaving + RootSet(mainRoot) == starts
    ensures Pruned(g, runner, mainRoot, gone) == leaving - Reach(Children(ById(g.nodes)), starts)
  {
  }

  lemma HeldByOne(edges: Edges<Uuid>, run: Run)
    ensures HeldBy(edges, {run}) == Reach(edges, {run.decorator}) + run.detached
  {
    assert DecoratorsOf({run}) == {run.decorator};
    assert DetachedOf({run}) == run.detached;
  }

  /** With a run alone, its fragment is what would leave. */
  lemma FragmentLeaves(g: Graph, runner: Uuid, fragment: seq<Node>, run: Run, rn: Node)
    requires UniqueIds(g.nodes) && runner in IdsOf(g.nodes) && IsFragment(g, fragment, run) && rn.id == runner
    ensures HeldBy(Children(ById(Grafted(g, fragment, rn).nodes)), {run}) == IdsOf(fragment)
  {
    ReachIsLeast(Children(ById(g.nodes)), {}, {});
    GraftedReach(g, runner, fragment, run, rn, {});
    HeldByOne(Children(ById(Grafted(g, fragment, rn).nodes)), run);
  }

  /** Outside the fragment stand the nodes there were. */
  lemma OutsideStarts(g: Graph, runner: Uuid, mainRoot: Option<Uuid>, runs: set<Run>, fragment: seq<Node>, rn: Node)
    requires Hangs(g, runner, mainRoot, runs) && rn.id == runner
    requires UniqueIds(fragment) && IdsOf(fragment) !! IdsOf(g.nodes)
    ensures IdsOf(Grafted(g, fragment, rn).nodes) - {runner} - IdsOf(fragment) + RootSet(mainRoot)
            == IdsOf(g.nodes) - {runner}
  {
    GraftedHolds(g, fragment, rn);
    HangingReachesNodes(g, runner, mainRoot, runs);
    assert Reach(Children(ById(g.nodes)), RootSet(mainRoot)) >= RootSet(mainRoot);
  }

  lemma OutsideTells(g: Graph, runner: Uuid, fragment: seq<Node>, run: Run, rn: Node)
    requires UniqueIds(g.nodes) && UniqueIds(fragment) && IdsOf(fragment) !! IdsOf(g.nodes) && rn.id in IdsOf(g.nodes)
    requires rn.id == runner && run.decorator in IdsOf(fragment) && run.decorator in ChildList(rn)
    ensures Reach(Children(ById(Grafted(g, fragment, rn).nodes)), IdsOf(g.nodes) - {runner}) !! IdsOf(fragment)
            <==> NoneHolds(g, runner, IdsOf(fragment))
  {
    if NoneHolds(g, runner, IdsOf(fragment)) {
      OutsideStaysOut(g, runner, fragment, rn);
    } else {
      var n :| n in g.nodes && n.id != runner && !(SetOf(ChildList(n)) !! IdsOf(fragment) + {runner});
      InsideIsHeld(g, runner, fragment, run, rn, n);
    }
  }

  lemma OutsideStaysOut(g: Graph, runner: Uuid, fragment: seq<Node>, rn: Node)
    requires UniqueIds(g.nodes) && UniqueIds(fragment) && IdsOf(fragment) !! IdsOf(g.nodes) && rn.id in IdsOf(g.nodes)
    requires rn.id == runner
    requires NoneHolds(g, runner, IdsOf(fragment))
    ensures Reach(Children(ById(Grafted(g, fragment, rn).nodes)), IdsOf(g.nodes) - {runner}) !! IdsOf(fragment)
  {
    GraftedHolds(g, fragment, rn);
    var nodes := Grafted(g, fragment, rn).nodes;
    var edges, starts := Children(ById(nodes)), IdsOf(g.nodes) - {runner};
    ByIdKeys(nodes);
    var there := Reach(edges, starts) - IdsOf(fragment) - {runner};
    forall id, child | id in there && child in Next(edges, id) ensures child in there {
      var n :| n in g.nodes && n.id == id;
      NextOf(nodes, n);
      assert child in SetOf(ChildList(n));
    }
    ReachIsLeast(edges, starts, there);
  }

  /** Held from outside, a part of the fragment does not leave. */
  lemma InsideIsHeld(g: Graph, runner: Uuid, fragment: seq<Node>, run: Run, rn: Node, n: Node)
    requires UniqueIds(g.nodes) && UniqueIds(fragment) && IdsOf(fragment) !! IdsOf(g.nodes) && rn.id in IdsOf(g.nodes)
    requires rn.id == runner && run.decorator in IdsOf(fragment) && run.decorator in ChildList(rn)
    requires n in g.nodes && n.id != runner && !(SetOf(ChildList(n)) !! IdsOf(fragment) + {runner})
    ensures !(Reach(Children(ById(Grafted(g, fragment, rn).nodes)), IdsOf(g.nodes) - {runner}) !! IdsOf(fragment))
  {
    var nodes := Grafted(g, fragment, rn).nodes;
    var edges, starts := Children(ById(nodes)), IdsOf(g.nodes) - {runner};
    assert n.id in starts;
    GraftedHolds(g, fragment, rn);
    var child :| child in ChildList(n) && child in IdsOf(fragment) + {runner};
    NextOf(nodes, n);
    NextOf(nodes, rn);
    var reached := Reach(edges, starts);
    assert child in Next(edges, n.id);
    assert child in reached;
    if child == runner {
      assert run.decorator in Next(edges, runner);
      assert run.decorator in reached;
    }
  }

  predicate NoneReads(g: Graph, runner: Uuid, fragment: set<Uuid>) {
    forall n :: n in g.nodes && n.id != runner ==> KeptBind(n.bind, fragment) == n.bind
  }

  /** Set again, the runner as it was gives the nodes as they were. */
  lemma RunnerSetBack(nodes: seq<Node>, other: Node, rn: Node)
    requires UniqueIds(nodes) && rn in nodes && other.id == rn.id
    ensures SetNode(SetNode(nodes, other), rn) == nodes
  {
    SetNodeHolds(nodes, other);
    var at :| 0 <= at < |nodes| && nodes[at] == rn;
    forall i | 0 <= i < |nodes| ensures SetNode(SetNode(nodes, other), rn)[i] == nodes[i] {
      assert i != at ==> nodes[i].id != nodes[at].id;
    }
  }

  lemma FragmentWithout(g: Graph, fragment: seq<Node>, rn: Node)
    requires UniqueIds(g.nodes) && UniqueIds(fragment) && IdsOf(fragment) !! IdsOf(g.nodes)
    requires rn.id in IdsOf(g.nodes) && rn.bind == map[] && NoneReads(g, rn.id, IdsOf(fragment))
    ensures Without(Grafted(g, fragment, rn).nodes, IdsOf(fragment)) == SetNode(g.nodes, rn)
  {
    SetNodeHolds(g.nodes, rn);
    SetNodeShape(g.nodes, rn);
    WithoutSplits(SetNode(g.nodes, rn), fragment, IdsOf(fragment));
    WithoutAll(fragment, IdsOf(fragment));
    WithoutUnread(SetNode(g.nodes, rn), IdsOf(fragment));
  }

  /** A binding read the fragment: gone, the graph is not as it was. */
  lemma ReadIsUnbound(g: Graph, fragment: seq<Node>, over: Node, rn: Node)
    requires UniqueIds(g.nodes) && UniqueIds(fragment) && IdsOf(fragment) !! IdsOf(g.nodes)
    requires rn.id in IdsOf(g.nodes) && rn.id == over.id && !NoneReads(g, rn.id, IdsOf(fragment))
    ensures Left(Grafted(g, fragment, over), IdsOf(fragment), rn) != g
  {
    var n :| n in g.nodes && n.id != rn.id && KeptBind(n.bind, IdsOf(fragment)) != n.bind;
    var nodes, f := Grafted(g, fragment, over).nodes, IdsOf(fragment);
    var unbound := n.(bind := KeptBind(n.bind, f));
    GraftedHolds(g, fragment, over);
    WithoutHolds(nodes, f);
    assert unbound in Without(nodes, f);
    SetNodeHolds(Without(nodes, f), rn);
    OneOfAnId(g.nodes, n, unbound);
  }

  lemma OneOfAnId(nodes: seq<Node>, n: Node, other: Node)
    requires UniqueIds(nodes) && n in nodes && other.id == n.id
    ensures other in nodes <==> other == n
  {
    ByIdFinds(nodes, n);
    if other in nodes {
      ByIdFinds(nodes, other);
    }
  }

  /**
   A run grafted and then pruned leaves the scaffold exactly as it was, if
   and only if no node but the runner held or read a node of its fragment, or
   held the runner.
   */
  lemma GraftThenPrune(g: Graph, runner: Uuid, mainRoot: Option<Uuid>, runs: set<Run>, fragment: seq<Node>, run: Run,
                       over: Node, rn: Node)
    requires Hangs(g, runner, mainRoot, runs) && IsFragment(g, fragment, run) && rn in g.nodes && rn.id == runner
    requires over.id == runner && over.bind == map[] && run.decorator in ChildList(over)
    ensures Left(Grafted(g, fragment, over), Pruned(Grafted(g, fragment, over), runner, mainRoot, {run}), rn) == g
            <==> NoneHolds(g, runner, IdsOf(fragment)) && NoneReads(g, runner, IdsOf(fragment))
  {
    PrunedWhole(g, runner, mainRoot, runs, fragment, run, over);
    PrunedBack(g, fragment, over, rn, Pruned(Grafted(g, fragment, over), runner, mainRoot, {run}));
  }

  lemma PrunedBack(g: Graph, fragment: seq<Node>, over: Node, rn: Node, pruned: set<Uuid>)
    requires UniqueIds(g.nodes) && UniqueIds(fragment) && IdsOf(fragment) !! IdsOf(g.nodes)
    requires rn in g.nodes && over.id == rn.id && over.bind == map[]
    requires pruned <= IdsOf(fragment) && (pruned == IdsOf(fragment) <==> NoneHolds(g, rn.id, IdsOf(fragment)))
    ensures Left(Grafted(g, fragment, over), pruned, rn) == g
            <==> NoneHolds(g, rn.id, IdsOf(fragment)) && NoneReads(g, rn.id, IdsOf(fragment))
  {
    if pruned != IdsOf(fragment) {
      PartStays(g, fragment, over, pruned, rn);
    } else if NoneReads(g, rn.id, IdsOf(fragment)) {
      FragmentWithout(g, fragment, over);
      RunnerSetBack(g.nodes, over, rn);
    } else {
      ReadIsUnbound(g, fragment, over, rn);
    }
  }

  /** A part of the fragment stays: the graph is not as it was. */
  lemma PartStays(g: Graph, fragment: seq<Node>, over: Node, pruned: set<Uuid>, rn: Node)
    requires UniqueIds(g.nodes) && UniqueIds(fragment) && IdsOf(fragment) !! IdsOf(g.nodes)
    requires rn.id in IdsOf(g.nodes) && over.id == rn.id && !(IdsOf(fragment) <= pruned)
    ensures Left(Grafted(g, fragment, over), pruned, rn) != g
  {
    var g1 := Grafted(g, fragment, over);
    GraftedHolds(g, fragment, over);
    var id :| id in IdsOf(fragment) && id !in pruned;
    WithoutHolds(g1.nodes, pruned);
    SetNodeHolds(Without(g1.nodes, pruned), rn);
    assert id in IdsOf(Left(g1, pruned, rn).nodes) && id !in IdsOf(g.nodes);
  }
}
