/**
 What each operation's edit makes of the scaffold.

 For a prune, a graft, an editor's edit and a load: once the edit is accepted,
 the main root and the runs hang from the runner, and the runner is no
 descendant of its own (the lemmas named `...Hangs`).

 Each but a load leaves the runs' decorators to the runner alone, and none of
 them starts afresh (those named `...Spares`).  A load does exactly when its
 graph names none of them (`LoadTells`).
 */
module ScaffoldEdits {
  import opened Integers
  import opened Digraphs
  import opened Graphs
  import opened GraphEdits
  import opened Scaffolds
  import opened Grafts
  import opened Decorators

  function DecoratorList(runs: seq<Run>): seq<Uuid> {
    seq(|runs|, i requires 0 <= i < |runs| => runs[i].decorator)
  }

  function RootList(root: Option<Uuid>): seq<Uuid> {
    if root.Some? then [root.value] else []
  }

  /** The runner over the main root and the runs, in order. */
  function RunnerNode(runner: Uuid, mainRoot: Option<Uuid>, runs: seq<Run>): Node {
    Node(runner, PARALLEL, map[], Some(RootList(mainRoot) + DecoratorList(runs)))
  }

  lemma RunnerHoldsAll(runner: Uuid, mainRoot: Option<Uuid>, runs: seq<Run>)
    ensures SetOf(ChildList(RunnerNode(runner, mainRoot, runs))) == RootSet(mainRoot) + DecoratorsOf(SetOf(runs))
  {
    var list := DecoratorList(runs);
    forall d | d in DecoratorsOf(SetOf(runs)) ensures d in list {
      var run :| run in runs && run.decorator == d;
      var i :| 0 <= i < |runs| && runs[i] == run;
      assert list[i] == d;
    }
  }

  /** The nodes an edit has start afresh: those it changes, and those it
      unbinds by removing what they read. */
  ghost function Restarted(g: Graph, diff: GraphDiff): set<Uuid> {
    ChangedBy(diff) + UnboundBy(g, SetOf(diff.remove))
  }

  /** No selection is bound to a return: it would be written. */
  predicate SelectsNoReturn(g: Graph) {
    forall n :: n in g.nodes ==> !SelectsReturn(n)
  }

  predicate SelectsReturn(n: Node) {
    RETURN_PORT in n.bind && n.bind[RETURN_PORT].Select?
  }

  /** A graph of these nodes alone selects none. */
  lemma OnlyThese(g: Graph, nodes: seq<Node>)
    requires UniqueIds(g.nodes) && IdsOf(g.nodes) <= IdsOf(nodes)
    requires forall n :: n in nodes ==> n in g.nodes && !SelectsReturn(n)
    ensures SelectsNoReturn(g)
  {
    forall n | n in g.nodes ensures !SelectsReturn(n) {
      assert n.id in IdsOf(g.nodes);
      var other :| other in nodes && other.id == n.id;
      OneOfAnId(g.nodes, n, other);
    }
  }

  /** An edit is accepted: it applies, keeps the tree under the runner, and
      the graph it makes lowers. */
  ghost predicate Accepted(runner: Uuid, lowers: (Graph, bool) -> bool, g: Graph, diff: GraphDiff, detached: bool) {
    && Applied(g, diff).Some?
    && AcyclicUnder(Children(ById(Applied(g, diff).value.nodes)), runner)
    && SelectsNoReturn(Applied(g, diff).value) && lowers(Applied(g, diff).value, detached)
  }

  /** A runner over the main root and the runs is what they hang from. */
  lemma HangsFrom(g: Graph, runner: Uuid, mainRoot: Option<Uuid>, list: seq<Run>, rn: Node)
    requires UniqueIds(g.nodes) && g.root == Some(runner) && rn in g.nodes
    requires rn.id == runner && rn.children == RunnerNode(runner, mainRoot, list).children
    requires AcyclicUnder(Children(ById(g.nodes)), runner) && runner !in DetachedOf(SetOf(list))
    ensures Hangs(g, runner, mainRoot, SetOf(list))
  {
    var edges := Children(ById(g.nodes));
    NextOf(g.nodes, rn);
    RunnerHoldsAll(runner, mainRoot, list);
    assert NextSet(edges, runner) == SetOf(ChildList(rn));
    ByIdKeys(g.nodes);
    UnderAreNodes(edges, runner, NextSet(edges, runner));
  }

  // Pruning.

  lemma DecoratorsTell(runs: seq<Run>)
    ensures SetOf(DecoratorList(runs)) == DecoratorsOf(SetOf(runs))
  {
    forall d | d in DecoratorsOf(SetOf(runs)) ensures d in DecoratorList(runs) {
      var run :| run in runs && run.decorator == d;
      var i :| 0 <= i < |runs| && runs[i] == run;
      assert DecoratorList(runs)[i] == d;
    }
  }

  lemma DistinctApart(rest: seq<Run>, gone: seq<Run>)
    requires Distinct(DecoratorList(rest + gone))
    ensures Distinct(DecoratorList(rest)) && DecoratorsOf(SetOf(rest)) !! DecoratorsOf(SetOf(gone))
  {
    var all := DecoratorList(rest + gone);
    forall i, j | 0 <= i < j < |rest| ensures DecoratorList(rest)[i] != DecoratorList(rest)[j] {
      assert all[i] != all[j];
    }
    DecoratorsTell(rest);
    DecoratorsTell(gone);
    forall i, j | 0 <= i < |rest| && 0 <= j < |gone| ensures DecoratorList(rest)[i] != DecoratorList(gone)[j] {
      assert all[i] != all[|rest| + j];
    }
  }

  lemma TakenOut(rest: seq<Run>, gone: seq<Run>)
    ensures rest + [] == rest && SetOf(rest + gone) == SetOf(rest) + SetOf(gone)
    ensures gone == [] ==> SetOf(rest + gone) == SetOf(rest)
    ensures Distinct(DecoratorList(rest + gone)) ==>
              Distinct(DecoratorList(rest)) && DecoratorsOf(SetOf(rest)) !! DecoratorsOf(SetOf(gone))
  {
    if Distinct(DecoratorList(rest + gone)) {
      DistinctApart(rest, gone);
    }
    assert gone == [] ==> rest + gone == rest;
  }

  lemma RunnerIsNotPruned(g: Graph, runner: Uuid, mainRoot: Option<Uuid>, all: set<Run>, gone: set<Run>)
    requires Hangs(g, runner, mainRoot, all) && gone <= all
    ensures runner !in Reach(Children(ById(g.nodes)), DecoratorsOf(gone))
    ensures runner !in Pruned(g, runner, mainRoot, gone)
  {
    HangingReachesNodes(g, runner, mainRoot, all);
    assert DecoratorsOf(gone) <= DecoratorsOf(all) && DetachedOf(gone) <= DetachedOf(all);
    ReachGrows(Children(ById(g.nodes)), DecoratorsOf(gone), DecoratorsOf(all));
  }

  lemma PrunedHangs(g: Graph, runner: Uuid, mainRoot: Option<Uuid>, rest: seq<Run>, gone: set<Run>, pruned: set<Uuid>)
    requires Hangs(g, runner, mainRoot, SetOf(rest) + gone)
    requires var left := Left(g, pruned, RunnerNode(runner, mainRoot, rest));
             UniqueIds(left.nodes) && AcyclicUnder(Children(ById(left.nodes)), runner)
    ensures Hangs(Left(g, pruned, RunnerNode(runner, mainRoot, rest)), runner, mainRoot, SetOf(rest))
  {
    var rn := RunnerNode(runner, mainRoot, rest);
    WithoutHolds(g.nodes, pruned);
    SetNodeHolds(Without(g.nodes, pruned), rn);
    HangsFrom(Left(g, pruned, rn), runner, mainRoot, rest, rn);
  }

  /** What the runs gone hold is no decorator of the runs left. */
  lemma GoneHoldNone(g: Graph, runner: Uuid, mainRoot: Option<Uuid>, rest: set<Run>, gone: set<Run>)
    requires UniqueIds(g.nodes) && Scaffolded(g, runner, mainRoot, rest + gone)
    requires DecoratorsOf(rest) !! DecoratorsOf(gone)
    requires runner !in Reach(Children(ById(g.nodes)), DecoratorsOf(gone))
    ensures Scaffolded(g, runner, mainRoot, rest) && Pruned(g, runner, mainRoot, gone) !! DecoratorsOf(rest)
  {
    FewerRuns(g, runner, mainRoot, rest + gone, rest);
    DecoratorsAreApart(g, runner, mainRoot, rest, DecoratorsOf(gone));
    assert DetachedOf(gone) <= DetachedOf(rest + gone);
  }

  /** No node left names one that left. */
  lemma LeftNamesNone(g: Graph, runner: Uuid, mainRoot: Option<Uuid>, rest: seq<Run>, gone: set<Run>)
    requires Hangs(g, runner, mainRoot, SetOf(rest) + gone)
    requires Scaffolded(g, runner, mainRoot, SetOf(rest) + gone) && DecoratorsOf(SetOf(rest)) !! DecoratorsOf(gone)
    ensures var pruned := Pruned(g, runner, mainRoot, gone);
            ChildrenOf(Left(g, pruned, RunnerNode(runner, mainRoot, rest)).nodes) !! pruned
  {
    hide Reach, Hangs, Scaffolded;
    var pruned, rn := Pruned(g, runner, mainRoot, gone), RunnerNode(runner, mainRoot, rest);
    var left := Left(g, pruned, rn);
    RunnerIsNotPruned(g, runner, mainRoot, SetOf(rest) + gone, gone);
    UniqueOfHanging(g, runner, mainRoot, SetOf(rest) + gone);
    GoneHoldNone(g, runner, mainRoot, SetOf(rest), gone);
    RunnerHoldsAll(runner, mainRoot, rest);
    WithoutShape(g.nodes, pruned);
    SetNodeShape(Without(g.nodes, pruned), rn);
    forall n, child | n in left.nodes && child in ChildList(n) ensures child !in pruned {
      if n != rn {
        var m :| m in g.nodes && n == m.(bind := KeptBind(m.bind, pruned));
        NothingNamesPruned(g, runner, mainRoot, gone, m, child);
      } else {
        assert child in RootSet(mainRoot) + DecoratorsOf(SetOf(rest));
      }
    }
  }

  lemma UniqueOfHanging(g: Graph, runner: Uuid, mainRoot: Option<Uuid>, runs: set<Run>)
    requires Hangs(g, runner, mainRoot, runs)
    ensures UniqueIds(g.nodes)
  {
  }

  lemma SetsTheRunner(diff: GraphDiff, rn: Node, decorators: set<Uuid>)
    requires diff == GraphDiff(diff.remove, [rn], [], [], None)
    requires SetOf(diff.remove) !! decorators && rn.id !in decorators
    ensures SparesDecorators(diff, rn.id, decorators)
  {
    assert ChangedBy(diff) == {rn.id};
  }

  /** Pruning leaves the decorators of the runs left. */
  lemma PruneSpares(g: Graph, runner: Uuid, mainRoot: Option<Uuid>, rest: set<Run>, gone: set<Run>, diff: GraphDiff,
                    rn: Node)
    requires UniqueIds(g.nodes) && DecoratorsOf(rest) !! DecoratorsOf(gone)
    requires runner !in Reach(Children(ById(g.nodes)), DecoratorsOf(gone))
    requires rn.id == runner && diff == GraphDiff(diff.remove, [rn], [], [], None) && Applied(g, diff).Some?
    requires SetOf(diff.remove) == Pruned(g, runner, mainRoot, gone) && Scaffolded(g, runner, mainRoot, rest + gone)
    ensures Scaffolded(Applied(g, diff).value, runner, mainRoot, rest) && Restarted(g, diff) !! DecoratorsOf(rest)
  {
    GoneHoldNone(g, runner, mainRoot, rest, gone);
    SetsTheRunner(diff, rn, DecoratorsOf(rest));
    EditKeepsDecorators(g, diff, runner, mainRoot, rest, mainRoot);
  }

  /** What an accepted prune hangs. */
  lemma PruneHangs(g: Graph, runner: Uuid, mainRoot: Option<Uuid>, rest: seq<Run>, gone: set<Run>, diff: GraphDiff,
                   after: Graph)
    requires Hangs(g, runner, mainRoot, SetOf(rest) + gone)
    requires diff == GraphDiff(diff.remove, [RunnerNode(runner, mainRoot, rest)], [], [], None)
    requires SetOf(diff.remove) == Pruned(g, runner, mainRoot, gone)
    requires Applied(g, diff) == Some(after) && AcyclicUnder(Children(ById(after.nodes)), runner)
    ensures after == Left(g, Pruned(g, runner, mainRoot, gone), RunnerNode(runner, mainRoot, rest))
    ensures Hangs(after, runner, mainRoot, SetOf(rest))
    ensures runner !in Reach(Children(ById(g.nodes)), DecoratorsOf(gone))
  {
    RunnerIsNotPruned(g, runner, mainRoot, SetOf(rest) + gone, gone);
    PruneMakes(g, diff.remove, RunnerNode(runner, mainRoot, rest));
    EditShape(g, diff);
    PrunedHangs(g, runner, mainRoot, rest, gone, SetOf(diff.remove));
  }

  lemma HangsFewer(g: Graph, runner: Uuid, mainRoot: Option<Uuid>, rest: set<Run>, gone: set<Run>)
    requires Hangs(g, runner, mainRoot, rest + gone)
    ensures Hangs(g, runner, mainRoot, rest)
  {
  }

  // Grafting.

  lemma DecoratorsAreNodes(g: Graph, runner: Uuid, mainRoot: Option<Uuid>, runs: set<Run>)
    requires Hangs(g, runner, mainRoot, runs)
    ensures RootSet(mainRoot) + DecoratorsOf(runs) <= IdsOf(g.nodes)
  {
    HangingAreNodes(g, runner, mainRoot, runs);
  }

  lemma SetsFragment(fragment: seq<Node>, rn: Node, decorators: set<Uuid>)
    requires ClosedUnder(fragment, IdsOf(fragment)) && IdsOf(fragment) !! decorators && rn.id !in decorators
    ensures SparesDecorators(GraphDiff([], fragment + [rn], [], [], None), rn.id, decorators)
  {
    var diff := GraphDiff([], fragment + [rn], [], [], None);
    assert IdsOf(diff.set_) == IdsOf(fragment) + {rn.id};
    assert ChangedBy(diff) == IdsOf(diff.set_);
    forall s, child | s in diff.set_ && s.id != rn.id && child in ChildList(s) ensures child in IdsOf(fragment) {
      assert s in fragment && child in SetOf(ChildList(s));
    }
  }

  /** One more decorator, which nothing but the runner names. */
  lemma OneMoreDecorator(g: Graph, runner: Uuid, mainRoot: Option<Uuid>, runs: set<Run>, run: Run)
    requires Scaffolded(g, runner, mainRoot, runs) && run.decorator != runner
    requires run.decorator !in RootSet(mainRoot) + DetachedOf(runs) + run.detached + Readers(g.nodes)
    requires run.detached !! DecoratorsOf(runs)
    requires run.decorator !in ChildrenBeside(g.nodes, runner)
    ensures Scaffolded(g, runner, mainRoot, runs + {run})
  {
    RunsGrow(runs, run);
  }

  /** What a run's decorator's id may be: one that appears nowhere yet. */
  ghost predicate Unused(g: Graph, runs: set<Run>, fragment: seq<Node>, run: Run) {
    && run.decorator !in DetachedOf(runs) + run.detached + IdsOf(fragment)
    && (forall n :: n in g.nodes ==> run.decorator !in ChildList(n))
    && ClosedUnder(fragment, IdsOf(fragment))
  }

  lemma GraftedUnnamed(g: Graph, runs: set<Run>, fragment: seq<Node>, run: Run, root: Uuid, rn: Node)
    requires Unused(g, runs, fragment, run) && root != run.decorator
    ensures var after := Grafted(g, fragment + [DecoratorNode(run.decorator, run.status, root)], rn);
            run.decorator !in ChildrenBeside(after.nodes, rn.id)
  {
    SetNodeShape(g.nodes, rn);
    forall m | m in fragment ensures run.decorator !in ChildList(m) {
      assert SetOf(ChildList(m)) <= IdsOf(fragment);
      assert run.decorator in ChildList(m) ==> run.decorator in SetOf(ChildList(m));
    }
  }

  /** What an accepted graft hangs, the main behavior as it was. */
  lemma GraftWorks(g: Graph, runner: Uuid, mainRoot: Option<Uuid>, runs: seq<Run>, finished: seq<Run>,
                   fragment: seq<Node>, run: Run, rn: Node, diff: GraphDiff, after: Graph)
    requires Hangs(g, runner, mainRoot, SetOf(runs + finished)) && IsFragment(g, fragment, run)
    requires rn == RunnerNode(runner, mainRoot, runs + [run] + finished)
    requires diff == GraphDiff([], fragment + [rn], [], [], None)
    requires Applied(g, diff) == Some(after) && AcyclicUnder(Children(ById(after.nodes)), runner)
    ensures after == Grafted(g, fragment, rn)
    ensures Hangs(after, runner, mainRoot, SetOf(runs + finished) + {run})
    ensures MainGraph(after, runner, mainRoot, SetOf(runs + finished) + {run})
            == MainGraph(g, runner, mainRoot, SetOf(runs + finished))
  {
    GraftMakes(g, fragment, run, rn);
    GraftKeepsMain(g, runner, mainRoot, SetOf(runs + finished), fragment, run, rn);
    GraftHangs(g, runner, mainRoot, runs, finished, fragment, run);
  }

  lemma GraftStands(g: Graph, runner: Uuid, mainRoot: Option<Uuid>, all: set<Run>, fragment: seq<Node>, root: Uuid,
                    run: Run, rn: Node, diff: GraphDiff, after: Graph)
    requires Hangs(g, runner, mainRoot, all) && Unused(g, all, fragment, run) && Scaffolded(g, runner, mainRoot, all)
    requires IsFragment(g, fragment + [DecoratorNode(run.decorator, run.status, root)], run) && root != run.decorator
    requires diff == GraphDiff([], fragment + [DecoratorNode(run.decorator, run.status, root)] + [rn], [], [], None)
    requires rn.id == runner && Applied(g, diff) == Some(after)
    requires after == Grafted(g, fragment + [DecoratorNode(run.decorator, run.status, root)], rn)
    ensures Scaffolded(after, runner, mainRoot, all + {run})
    ensures ChangedBy(diff) + UnboundBy(g, SetOf(diff.remove)) !! DecoratorsOf(all)
  {
    var decorated := fragment + [DecoratorNode(run.decorator, run.status, root)];
    DecoratorIsNew(g, runner, mainRoot, all, decorated, run);
    SetsFragment(decorated, rn, DecoratorsOf(all));
    EditKeepsDecorators(g, diff, runner, mainRoot, all, mainRoot);
    GraftedUnnamed(g, all, fragment, run, root, rn);
    NewReadsNothing(g, fragment, run, root, rn);
    OneMoreDecorator(after, runner, mainRoot, all, run);
  }

  /** The new decorator is a new node, and so are the run's detached ones. */
  lemma DecoratorIsNew(g: Graph, runner: Uuid, mainRoot: Option<Uuid>, all: set<Run>, fragment: seq<Node>, run: Run)
    requires Hangs(g, runner, mainRoot, all) && IsFragment(g, fragment, run)
    ensures RootSet(mainRoot) + DecoratorsOf(all) + {runner} <= IdsOf(g.nodes)
    ensures run.decorator !in IdsOf(g.nodes) && run.detached !! IdsOf(g.nodes)
  {
    DecoratorsAreNodes(g, runner, mainRoot, all);
  }

  lemma NewReadsNothing(g: Graph, fragment: seq<Node>, run: Run, root: Uuid, rn: Node)
    requires UniqueIds(g.nodes) && rn.id in IdsOf(g.nodes)
    requires var all := fragment + [DecoratorNode(run.decorator, run.status, root)];
             UniqueIds(all) && IdsOf(all) !! IdsOf(g.nodes)
    ensures run.decorator !in Readers(Grafted(g, fragment + [DecoratorNode(run.decorator, run.status, root)], rn).nodes)
  {
    var decorator := DecoratorNode(run.decorator, run.status, root);
    var all := fragment + [decorator];
    var after := Grafted(g, all, rn);
    GraftedHolds(g, all, rn);
    assert all[|fragment|] == decorator;
    assert decorator in all;
    forall n | n in after.nodes && n.id == run.decorator ensures !ReadsPorts(n) {
      OneOfAnId(after.nodes, decorator, n);
    }
  }

  lemma GraftHangs(g: Graph, runner: Uuid, mainRoot: Option<Uuid>, runs: seq<Run>, finished: seq<Run>,
                   fragment: seq<Node>, run: Run)
    requires UniqueIds(g.nodes) && UniqueIds(fragment) && IdsOf(fragment) !! IdsOf(g.nodes)
    requires g.root == Some(runner) && runner in IdsOf(g.nodes)
    requires runner !in DetachedOf(SetOf(runs + finished)) + run.detached
    requires AcyclicUnder(Children(ById(Grafted(g, fragment,
                                                RunnerNode(runner, mainRoot, runs + [run] + finished)).nodes)), runner)
    ensures Hangs(Grafted(g, fragment, RunnerNode(runner, mainRoot, runs + [run] + finished)), runner, mainRoot,
                  SetOf(runs + finished) + {run})
  {
    var list := runs + [run] + finished;
    GraftedHolds(g, fragment, RunnerNode(runner, mainRoot, list));
    assert SetOf(list) == SetOf(runs + finished) + {run};
    RunsGrow(SetOf(runs + finished), run);
    HangsFrom(Grafted(g, fragment, RunnerNode(runner, mainRoot, list)), runner, mainRoot, list,
              RunnerNode(runner, mainRoot, list));
  }

  // Editing and loading.

  /** The last node an edit sets stands, but for its bindings. */
  lemma LastSetStands(g: Graph, diff: GraphDiff, set_: seq<Node>, rn: Node) returns (n: Node)
    requires UniqueIds(g.nodes) && Applied(g, diff).Some? && diff.set_ == set_ + [rn]
    ensures n in Applied(g, diff).value.nodes && n.id == rn.id && n.children == rn.children
  {
    var removed := SetOf(diff.remove);
    var kept := Without(g.nodes, removed);
    WithoutHolds(g.nodes, removed);
    SetAllShape(kept, set_);
    SetNodeHolds(SetAll(kept, set_), rn);
    assert diff.set_[..|diff.set_| - 1] == set_;
    ReboundAllHolds(SetAll(kept, diff.set_), diff);
    n := Rebound(rn, diff);
  }

  /** An accepted edit that sets the runner over what hangs from it. */
  lemma EditHangs(g: Graph, diff: GraphDiff, set_: seq<Node>, runner: Uuid, mainRoot: Option<Uuid>, list: seq<Run>,
                  after: Graph)
    requires UniqueIds(g.nodes) && g.root == Some(runner) && runner !in diff.remove && diff.root == None
    requires diff.set_ == set_ + [RunnerNode(runner, mainRoot, list)]
    requires Applied(g, diff) == Some(after) && AcyclicUnder(Children(ById(after.nodes)), runner)
    requires runner !in DetachedOf(SetOf(list))
    ensures Hangs(after, runner, mainRoot, SetOf(list))
  {
    EditShape(g, diff);
    var n := LastSetStands(g, diff, set_, RunnerNode(runner, mainRoot, list));
    HangsFrom(after, runner, mainRoot, list, n);
  }

  function ChildrenOf(nodes: seq<Node>): set<Uuid> {
    set n, child | n in nodes && child in ChildList(n) :: child
  }

  /** The children after an edit are those left and those set. */
  lemma EditedChildrenOf(g: Graph, diff: GraphDiff)
    requires UniqueIds(g.nodes) && Applied(g, diff).Some?
    ensures ChildrenOf(Applied(g, diff).value.nodes) <= ChildrenOf(g.nodes) + ChildrenOf(diff.set_)
  {
    EditShape(g, diff);
    var after := Applied(g, diff).value;
    forall n, child | n in after.nodes && child in ChildList(n)
      ensures child in ChildrenOf(g.nodes) + ChildrenOf(diff.set_)
    {
      ChildIsListed(n, child, if AsSet(n, diff.set_) then diff.set_ else g.nodes);
    }
  }

  lemma ChildIsListed(n: Node, child: Uuid, nodes: seq<Node>)
    requires child in ChildList(n)
    requires exists m :: m in nodes && m.id == n.id && m.function_ == n.function_ && m.children == n.children
    ensures child in ChildrenOf(nodes)
  {
    var m :| m in nodes && m.id == n.id && m.function_ == n.function_ && m.children == n.children;
    assert child in ChildList(m);
  }

  /** The root of a run's program: its decorator's one child. */
  function ProgramRoot(g: Graph, run: Run): Option<Uuid> {
    var index := ById(g.nodes);
    if run.decorator in index && ChildList(index[run.decorator]) != []
    then Some(ChildList(index[run.decorator])[0]) else None
  }

  /** An edit that would place the runner or a decorator, change a decorator,
      or remove a run's root, is refused. */
  predicate Refuses(g: Graph, runner: Uuid, runs: set<Run>, diff: GraphDiff) {
    || (RootSet(diff.root) + ChildrenOf(diff.set_)) * (DecoratorsOf(runs) + {runner}) != {}
    || (ChangedBy(diff) + SetOf(diff.remove)) * DecoratorsOf(runs) != {}
    || exists run :: run in runs && RootSet(ProgramRoot(g, run)) * (SetOf(diff.remove) - IdsOf(diff.set_)) != {}
  }

  /** The main root an edit leaves. */
  function NewMainRoot(mainRoot: Option<Uuid>, diff: GraphDiff): Option<Uuid> {
    if diff.root.Some? then diff.root
    else if mainRoot.Some? && mainRoot.value in diff.remove then None
    else mainRoot
  }

  /** An editor's edit, onto the scaffold: the runner stays the root. */
  function OntoScaffold(diff: GraphDiff, runner: Uuid, mainRoot: Option<Uuid>, list: seq<Run>): GraphDiff {
    GraphDiff(Only(diff.remove, SetOf(diff.remove) - {runner}), diff.set_ + [RunnerNode(runner, mainRoot, list)],
              diff.unbind, diff.bind, None)
  }

  /** What an accepted edit hangs. */
  lemma ApplyHangs(g: Graph, runner: Uuid, mainRoot: Option<Uuid>, list: seq<Run>, diff: GraphDiff, after: Graph)
    requires Hangs(g, runner, mainRoot, SetOf(list))
    requires var edit := OntoScaffold(diff, runner, NewMainRoot(mainRoot, diff), list);
             Applied(g, edit) == Some(after) && AcyclicUnder(Children(ById(after.nodes)), runner)
    ensures Hangs(after, runner, NewMainRoot(mainRoot, diff), SetOf(list))
  {
    var edit := OntoScaffold(diff, runner, NewMainRoot(mainRoot, diff), list);
    OnlyHolds(diff.remove, SetOf(diff.remove) - {runner});
    SetOfHas(edit.remove);
    EditHangs(g, edit, diff.set_, runner, NewMainRoot(mainRoot, diff), list, after);
  }

  lemma ApplySpares(g: Graph, runner: Uuid, mainRoot: Option<Uuid>, list: seq<Run>, diff: GraphDiff, after: Graph)
    requires UniqueIds(g.nodes) && !Refuses(g, runner, SetOf(list), diff)
    requires Scaffolded(g, runner, mainRoot, SetOf(list))
    requires Applied(g, OntoScaffold(diff, runner, NewMainRoot(mainRoot, diff), list)) == Some(after)
    ensures Scaffolded(after, runner, NewMainRoot(mainRoot, diff), SetOf(list))
    ensures Restarted(g, OntoScaffold(diff, runner, NewMainRoot(mainRoot, diff), list)) !! DecoratorsOf(SetOf(list))
  {
    var root := NewMainRoot(mainRoot, diff);
    EditSpares(diff, runner, root, list, g);
    EditKeepsDecorators(g, OntoScaffold(diff, runner, root, list), runner, mainRoot, SetOf(list), root);
  }

  lemma EditSpares(diff: GraphDiff, runner: Uuid, root: Option<Uuid>, list: seq<Run>, g: Graph)
    requires !Refuses(g, runner, SetOf(list), diff) && runner !in DecoratorsOf(SetOf(list))
    ensures SparesDecorators(OntoScaffold(diff, runner, root, list), runner, DecoratorsOf(SetOf(list)))
    ensures RootSet(diff.root) !! DecoratorsOf(SetOf(list))
  {
    var edit, rn := OntoScaffold(diff, runner, root, list), RunnerNode(runner, root, list);
    OnlyHolds(diff.remove, SetOf(diff.remove) - {runner});
    assert IdsOf(edit.set_) == IdsOf(diff.set_) + {runner};
    assert ChangedBy(edit) == ChangedBy(diff) + {runner};
    assert ChildrenBeside(edit.set_, runner) <= ChildrenOf(diff.set_);
  }

  /** A loaded graph names no decorator: as its root, or as a child. */
  predicate NamesNoDecorator(graph: Graph, decorators: set<Uuid>) {
    (RootSet(graph.root) + ChildrenOf(graph.nodes)) !! decorators
  }

  /** The previous main behavior leaves but for what the runs hold once the
      new nodes are set. */
  ghost function LoadRemoves(g: Graph, runner: Uuid, runs: set<Run>, graph: Graph): set<Uuid> {
    IdsOf(g.nodes) - {runner} - HeldBy(Children(ById(SetAll(g.nodes, graph.nodes))), runs)
  }

  /** Held by the runner alone, decorators are no nodes of the main behavior. */
  lemma DecoratorsAreNotMain(g: Graph, runner: Uuid, mainRoot: Option<Uuid>, runs: set<Run>)
    requires UniqueIds(g.nodes) && Scaffolded(g, runner, mainRoot, runs)
    requires runner !in Reach(Children(ById(g.nodes)), RootSet(mainRoot))
    ensures DecoratorsOf(runs) <= NotMain(Children(ById(g.nodes)), runner, mainRoot, runs)
  {
    DecoratorsAreApart(g, runner, mainRoot, runs, RootSet(mainRoot));
  }

  lemma LoadSpares(graph: Graph, diff: GraphDiff, rn: Node, decorators: set<Uuid>)
    requires diff == GraphDiff(diff.remove, graph.nodes + [rn], [], [], None)
    requires SetOf(diff.remove) !! decorators && IdsOf(graph.nodes) + {rn.id} !! decorators
    requires NamesNoDecorator(graph, decorators)
    ensures SparesDecorators(diff, rn.id, decorators)
  {
    assert IdsOf(diff.set_) == IdsOf(graph.nodes) + {rn.id};
    assert ChangedBy(diff) == IdsOf(diff.set_);
    assert ChildrenBeside(diff.set_, rn.id) <= ChildrenOf(graph.nodes);
  }

  /** A load leaves the decorators to the runner alone exactly when its graph
      names none of them. */
  lemma LoadTells(g: Graph, runner: Uuid, mainRoot: Option<Uuid>, runs: set<Run>, graph: Graph, diff: GraphDiff,
                  rn: Node, after: Graph)
    requires UniqueIds(g.nodes) && UniqueIds(graph.nodes) && rn.id == runner
    requires runner !in Reach(Children(ById(g.nodes)), RootSet(mainRoot))
    requires IdsOf(graph.nodes) !! NotMain(Children(ById(g.nodes)), runner, mainRoot, runs)
    requires diff == GraphDiff(diff.remove, graph.nodes + [rn], [], [], None)
    requires SetOf(diff.remove) == LoadRemoves(g, runner, runs, graph) && Applied(g, diff) == Some(after)
    requires Scaffolded(g, runner, mainRoot, runs)
    ensures Scaffolded(after, runner, graph.root, runs) <==> NamesNoDecorator(graph, DecoratorsOf(runs))
    ensures NamesNoDecorator(graph, DecoratorsOf(runs)) ==> Restarted(g, diff) !! DecoratorsOf(runs)
  {
    if NamesNoDecorator(graph, DecoratorsOf(runs)) {
      DecoratorsAreNotMain(g, runner, mainRoot, runs);
      LoadSpares(graph, diff, rn, DecoratorsOf(runs));
      EditKeepsDecorators(g, diff, runner, mainRoot, runs, graph.root);
    } else if RootSet(graph.root) !! DecoratorsOf(runs) {
      var s, d :| s in graph.nodes && d in ChildList(s) && d in DecoratorsOf(runs);
      LoadedStands(g, graph, diff, rn, s, after);
      assert d in ChildrenBeside(after.nodes, runner);
    }
  }

  lemma LoadedStands(g: Graph, graph: Graph, diff: GraphDiff, rn: Node, s: Node, after: Graph)
    requires UniqueIds(g.nodes) && UniqueIds(graph.nodes) && rn.id !in IdsOf(graph.nodes) && s in graph.nodes
    requires diff == GraphDiff(diff.remove, graph.nodes + [rn], [], [], None) && Applied(g, diff) == Some(after)
    ensures s in after.nodes && s.id != rn.id
  {
    OnlySets(g, diff.remove, graph.nodes + [rn]);
    OneMoreNode(graph.nodes, rn);
    var kept := Without(g.nodes, SetOf(diff.remove));
    WithoutHolds(g.nodes, SetOf(diff.remove));
    SetAllHolds(kept, graph.nodes + [rn]);
    assert s in graph.nodes + [rn] && s.id in IdsOf(graph.nodes);
  }

  /** What an accepted load hangs. */
  lemma LoadHangs(g: Graph, runner: Uuid, mainRoot: Option<Uuid>, list: seq<Run>, graph: Graph, diff: GraphDiff,
                  after: Graph)
    requires Hangs(g, runner, mainRoot, SetOf(list))
    requires diff == GraphDiff(diff.remove, graph.nodes + [RunnerNode(runner, graph.root, list)], [], [], None)
    requires SetOf(diff.remove) == LoadRemoves(g, runner, SetOf(list), graph)
    requires Applied(g, diff) == Some(after) && AcyclicUnder(Children(ById(after.nodes)), runner)
    ensures Hangs(after, runner, graph.root, SetOf(list))
    ensures runner !in Reach(Children(ById(g.nodes)), RootSet(mainRoot))
  {
    HangingReachesNodes(g, runner, mainRoot, SetOf(list));
    assert runner !in LoadRemoves(g, runner, SetOf(list), graph);
    SetOfHas(diff.remove);
    EditHangs(g, diff, graph.nodes, runner, graph.root, list, after);
  }
}
