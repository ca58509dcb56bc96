/**
 A device's behavior as a state machine: what each operation makes of it.

 A `Device` is an interpreter's state, and each operation a function from a
 device to a `Result`.  An edit, a load and a spawn prune the finished runs
 first, and so does a tick that lowers.

 Three predicates are what the theorems keep.  `Stands`: the runs and the main
 behavior hang from the runner.  `Orderly`: no decorator is listed twice.
 `Guarded`: the runner alone holds the decorators.  `Revises` is what a
 revision promises of two devices.
 */
module Devices {
  import opened Integers
  import opened Digraphs
  import opened Graphs
  import opened GraphEdits
  import opened Scaffolds
  import opened Grafts
  import opened Decorators
  import opened Respawns
  import opened ScaffoldEdits

  datatype Status = Success | Failure | Running

  /** By run-status decorator, what its latch holds in the lowered tree. */
  type Latches = map<Uuid, Option<Status>>

  /** The functions a device's index has, by the version of the index. */
  type Functions = nat

  datatype Config = Config(
    runner: Uuid,
    /** The functions ticked natively, and the interpreter module's. */
    native: set<Uuid>,
    interpreter: set<Uuid>,
    /** Whether a tree is built of a graph. */
    builds: Graph -> bool,
    /** Whether a graph's detached nodes lower against the functions. */
    lowers: (Functions, Graph) -> bool)
  {
    /** Whether an edited graph lowers; when asked, its detached nodes too. */
    function Lowers(functions: Functions): (Graph, bool) -> bool {
      (graph, detached) => builds(graph) && (detached ==> lowers(functions, graph))
    }
  }

  /** Every graph lowers, whatever the functions. */
  ghost predicate LowersAll(c: Config) {
    (forall g :: c.builds(g)) && forall functions, g :: c.lowers(functions, g)
  }

  datatype Device = Device(
    graph: Graph,
    mainRoot: Option<Uuid>,
    /** Live runs, in spawn order. */
    runs: seq<Run>,
    /** Finished runs, latched until they are pruned. */
    finished: seq<Run>,
    dirty: bool,
    /** The nodes that start afresh at the next lowering. */
    afresh: set<Uuid>,
    revision: nat,
    written: Option<nat>,
    /** The lowered tree's latches; none before the first lowering. */
    latches: Option<Latches>,
    /** By decorator, the status last written to its run's key. */
    published: map<Uuid, Status>,
    /** The functions of the last lowering. */
    functions: Functions)

  function All(d: Device): set<Run> {
    SetOf(d.runs + d.finished)
  }

  /** What a read answers. */
  ghost function MainOf(c: Config, d: Device): Graph {
    MainGraph(d.graph, c.runner, d.mainRoot, All(d))
  }

  /** Everything hangs from the runner. */
  ghost predicate Stands(c: Config, d: Device) {
    Hangs(d.graph, c.runner, d.mainRoot, All(d))
  }

  lemma HangsUnique(c: Config, d: Device)
    requires Stands(c, d)
    ensures UniqueIds(d.graph.nodes)
  {
  }

  /** The revision advanced, or a read answers what it did. */
  ghost predicate Revises(c: Config, d: Device, after: Device) {
    after.revision >= d.revision && (after.revision == d.revision ==> MainOf(c, after) == MainOf(c, d))
  }

  // Edits.

  ghost function Edited(d: Device, diff: GraphDiff): Device
    requires Applied(d.graph, diff).Some?
  {
    d.(graph := Applied(d.graph, diff).value, dirty := true, afresh := d.afresh + Restarted(d.graph, diff))
  }

  /** One revision more if a read no longer answers `before`. */
  ghost function RevisedSince(c: Config, d: Device, before: Graph): Device {
    if MainOf(c, d) == before then d else d.(revision := d.revision + 1)
  }

  lemma RevisingRevises(c: Config, d: Device, edited: Device)
    requires edited.revision == d.revision
    ensures Revises(c, d, RevisedSince(c, edited, MainOf(c, d)))
  {
  }

  datatype Result = Result(device: Device, ok: bool)

  // Pruning.

  lemma {:induction false} ListExists(s: set<Uuid>)
    ensures exists list: seq<Uuid> :: SetOf(list) == s
    decreases |s|
  {
    if s == {} {
      assert SetOf<Uuid>([]) == s;
    } else {
      var id :| id in s;
      ListExists(s - {id});
      var rest: seq<Uuid> :| SetOf(rest) == s - {id};
      SetOfMore(rest, id);
    }
  }

  /** A list of a set: its order means nothing to an edit. */
  ghost function ListOf(s: set<Uuid>): (list: seq<Uuid>)
    ensures SetOf(list) == s
  {
    ListExists(s);
    var list: seq<Uuid> :| SetOf(list) == s;
    list
  }

  /** The runner set over what is left once `remove` left. */
  function PruneDiff(c: Config, d: Device, remove: seq<Uuid>): GraphDiff {
    GraphDiff(remove, [RunnerNode(c.runner, d.mainRoot, d.runs + d.finished)], [], [], None)
  }

  /** What a prune makes of the device, with `pruned` leaving it. */
  ghost function PrunedDevice(c: Config, d: Device, pruned: set<Uuid>, before: Graph): Result {
    var diff := PruneDiff(c, d, ListOf(pruned));
    if !Accepted(c.runner, c.Lowers(d.functions), d.graph, diff, false) then Result(d, false)
    else Result(RevisedSince(c, Edited(d, diff), before), true)
  }

  /** `gone` are runs taken out of the lists, `all` with those left: their
      nodes leave but for those the main root or a node left reaches. */
  ghost function PruneResult(c: Config, d: Device, gone: seq<Run>, all: set<Run>): Result {
    if gone == [] then Result(d, true)
    else PrunedDevice(c, d, Pruned(d.graph, c.runner, d.mainRoot, SetOf(gone)),
                      MainGraph(d.graph, c.runner, d.mainRoot, all))
  }

  /** The finished runs pruned. */
  ghost function FinishedResult(c: Config, d: Device): Result {
    PruneResult(c, d.(finished := []), d.finished, All(d))
  }

  lemma PrunedStands(c: Config, d: Device, gone: seq<Run>, all: set<Run>, before: Graph)
    requires all == All(d) + SetOf(gone) && Hangs(d.graph, c.runner, d.mainRoot, all)
    ensures var r := PrunedDevice(c, d, Pruned(d.graph, c.runner, d.mainRoot, SetOf(gone)), before);
            && Stands(c, r.device)
            && (r.ok && r.device.revision == d.revision ==> MainOf(c, r.device) == before)
  {
    HangsFewer(d.graph, c.runner, d.mainRoot, All(d), SetOf(gone));
    var diff := PruneDiff(c, d, ListOf(Pruned(d.graph, c.runner, d.mainRoot, SetOf(gone))));
    if Accepted(c.runner, c.Lowers(d.functions), d.graph, diff, false) {
      var edited := Edited(d, diff);
      PruneHangs(d.graph, c.runner, d.mainRoot, d.runs + d.finished, SetOf(gone), diff, edited.graph);
      RevisedTo(c, edited, before);
    }
  }

  /** An edited device whose revision did not advance answers `before`. */
  lemma RevisedTo(c: Config, d: Device, before: Graph)
    ensures var r := RevisedSince(c, d, before);
            (Stands(c, d) ==> Stands(c, r)) && (r.revision == d.revision ==> MainOf(c, r) == before)
  {
    RevisedAlike(c, d, before);
  }

  /** Pruning keeps what hangs hanging, and what a read answers unless the
      revision advances. */
  lemma PruneStands(c: Config, d: Device, gone: seq<Run>, all: set<Run>)
    requires all == All(d) + SetOf(gone) && Hangs(d.graph, c.runner, d.mainRoot, all)
    ensures var r := PruneResult(c, d, gone, all);
            && Stands(c, r.device)
            && (r.ok && r.device.revision == d.revision ==>
                  MainOf(c, r.device) == MainGraph(d.graph, c.runner, d.mainRoot, all))
  {
    if gone == [] {
      assert all == All(d);
    } else {
      var before := MainGraph(d.graph, c.runner, d.mainRoot, all);
      PrunedStands(c, d, gone, all, before);
      assert PruneResult(c, d, gone, all)
             == PrunedDevice(c, d, Pruned(d.graph, c.runner, d.mainRoot, SetOf(gone)), before);
    }
  }

  /** What an edit does not touch. */
  predicate SameRuns(d: Device, after: Device) {
    && after.runs == d.runs && after.mainRoot == d.mainRoot
    && after.latches == d.latches && after.published == d.published && after.revision >= d.revision
  }

  lemma PrunedLists(c: Config, d: Device, pruned: set<Uuid>, before: Graph)
    ensures var r := PrunedDevice(c, d, pruned, before); SameRuns(d, r.device) && r.device.finished == d.finished
  {
  }

  lemma FinishedLists(c: Config, d: Device)
    ensures var r := FinishedResult(c, d); SameRuns(d, r.device) && r.device.finished == []
  {
    var rest := d.(finished := []);
    PrunedLists(c, rest, Pruned(d.graph, c.runner, d.mainRoot, SetOf(d.finished)),
                MainGraph(d.graph, c.runner, d.mainRoot, All(d)));
  }

  lemma FinishedStands(c: Config, d: Device)
    requires Stands(c, d)
    ensures var r := FinishedResult(c, d); Stands(c, r.device) && (r.ok ==> Revises(c, d, r.device))
  {
    FinishedLists(c, d);
    TakenOut(d.runs, d.finished);
    PruneStands(c, d.(finished := []), d.finished, All(d));
  }

  // The decorators.

  /** Each run has a decorator of its own, and without a change nothing is to
      start afresh. */
  predicate Orderly(d: Device) {
    Distinct(DecoratorList(d.runs + d.finished)) && (d.dirty || d.afresh == {})
  }

  /** The runner alone holds the decorators. */
  ghost predicate Guarded(c: Config, d: Device) {
    Scaffolded(d.graph, c.runner, d.mainRoot, All(d))
  }

  lemma PrunedGuarded(c: Config, d: Device, gone: seq<Run>, before: Graph)
    requires UniqueIds(d.graph.nodes) && c.runner !in Reach(Children(ById(d.graph.nodes)), DecoratorsOf(SetOf(gone)))
    requires Scaffolded(d.graph, c.runner, d.mainRoot, All(d) + SetOf(gone))
    requires DecoratorsOf(All(d)) !! DecoratorsOf(SetOf(gone))
    ensures Guarded(c, PrunedDevice(c, d, Pruned(d.graph, c.runner, d.mainRoot, SetOf(gone)), before).device)
  {
    var pruned := Pruned(d.graph, c.runner, d.mainRoot, SetOf(gone));
    var diff := PruneDiff(c, d, ListOf(pruned));
    var r := PrunedDevice(c, d, pruned, before);
    FewerRuns(d.graph, c.runner, d.mainRoot, All(d) + SetOf(gone), All(d));
    if Accepted(c.runner, c.Lowers(d.functions), d.graph, diff, false) {
      PruneSpares(d.graph, c.runner, d.mainRoot, All(d), SetOf(gone), diff, diff.set_[0]);
    }
  }

  lemma FinishedGuarded(c: Config, d: Device)
    requires Stands(c, d) && Orderly(d) && Guarded(c, d)
    ensures Orderly(FinishedResult(c, d).device) && Guarded(c, FinishedResult(c, d).device)
  {
    hide Reach, Accepted, MainGraph, Pruned;
    var rest := d.(finished := []);
    TakenOut(d.runs, d.finished);
    FinishedLists(c, d);
    if d.finished != [] {
      RunnerIsNotPruned(d.graph, c.runner, d.mainRoot, All(d), SetOf(d.finished));
      PrunedGuarded(c, rest, d.finished, MainGraph(d.graph, c.runner, d.mainRoot, All(d)));
    }
  }

  lemma RevisedAlike(c: Config, d: Device, before: Graph)
    ensures Stands(c, d) ==> Stands(c, RevisedSince(c, d, before))
    ensures Guarded(c, d) ==> Guarded(c, RevisedSince(c, d, before))
  {
    var after := RevisedSince(c, d, before);
    assert All(after) == All(d);
  }

  // Editing.

  /** An editor's edit, onto a scaffold without finished runs. */
  ghost function ApplyNow(c: Config, d: Device, diff: GraphDiff): Result {
    var root := NewMainRoot(d.mainRoot, diff);
    var edit := OntoScaffold(diff, c.runner, root, d.runs + d.finished);
    if Refuses(d.graph, c.runner, All(d), diff) || !Accepted(c.runner, c.Lowers(d.functions), d.graph, edit, false)
    then Result(d, false)
    else Result(RevisedSince(c, Edited(d, edit).(mainRoot := root), MainOf(c, d)), true)
  }

  ghost function ApplyAfter(c: Config, f: Result, diff: GraphDiff): Result {
    if f.ok then ApplyNow(c, f.device, diff) else f
  }

  ghost function ApplyResult(c: Config, d: Device, diff: GraphDiff): Result {
    ApplyAfter(c, FinishedResult(c, d), diff)
  }

  lemma ApplyStands(c: Config, d: Device, diff: GraphDiff)
    requires Stands(c, d)
    ensures var r := ApplyNow(c, d, diff); Stands(c, r.device) && (r.ok ==> Revises(c, d, r.device))
  {
    var root := NewMainRoot(d.mainRoot, diff);
    var edit := OntoScaffold(diff, c.runner, root, d.runs + d.finished);
    if ApplyNow(c, d, diff).ok {
      var edited := Edited(d, edit).(mainRoot := root);
      ApplyHangs(d.graph, c.runner, d.mainRoot, d.runs + d.finished, diff, edited.graph);
      RevisedAlike(c, edited, MainOf(c, d));
      RevisingRevises(c, d, edited);
    }
  }

  lemma ApplyGuarded(c: Config, d: Device, diff: GraphDiff)
    requires UniqueIds(d.graph.nodes) && Guarded(c, d)
    ensures Guarded(c, ApplyNow(c, d, diff).device)
  {
    var root := NewMainRoot(d.mainRoot, diff);
    var edit := OntoScaffold(diff, c.runner, root, d.runs + d.finished);
    if ApplyNow(c, d, diff).ok {
      var edited := Edited(d, edit).(mainRoot := root);
      ApplySpares(d.graph, c.runner, d.mainRoot, d.runs + d.finished, diff, edited.graph);
      RevisedAlike(c, edited, MainOf(c, d));
    }
  }

  // Loading.

  function LoadDiff(c: Config, d: Device, graph: Graph, remove: seq<Uuid>): GraphDiff {
    GraphDiff(remove, graph.nodes + [RunnerNode(c.runner, graph.root, d.runs + d.finished)], [], [], None)
  }

  /** A graph may be loaded that lists each node once, and none of them the
      runner's or only runs'. */
  ghost predicate Loadable(c: Config, d: Device, graph: Graph) {
    && UniqueIds(graph.nodes)
    && IdsOf(graph.nodes) !! NotMain(Children(ById(d.graph.nodes)), c.runner, d.mainRoot, All(d))
  }

  /** A load, onto a scaffold without finished runs. */
  ghost function LoadNow(c: Config, d: Device, graph: Graph): Result {
    var diff := LoadDiff(c, d, graph, ListOf(LoadRemoves(d.graph, c.runner, All(d), graph)));
    if !Loadable(c, d, graph) || !Accepted(c.runner, c.Lowers(d.functions), d.graph, diff, false) then Result(d, false)
    else Result(Edited(d, diff).(mainRoot := graph.root, revision := d.revision + 1), true)
  }

  ghost function LoadAfter(c: Config, f: Result, graph: Graph): Result {
    if f.ok then LoadNow(c, f.device, graph) else f
  }

  ghost function LoadResult(c: Config, d: Device, graph: Graph): Result {
    LoadAfter(c, FinishedResult(c, d), graph)
  }

  lemma LoadStands(c: Config, d: Device, graph: Graph)
    requires Stands(c, d)
    ensures var r := LoadNow(c, d, graph); Stands(c, r.device) && (r.ok ==> r.device.revision > d.revision)
  {
    var diff := LoadDiff(c, d, graph, ListOf(LoadRemoves(d.graph, c.runner, All(d), graph)));
    if LoadNow(c, d, graph).ok {
      LoadHangs(d.graph, c.runner, d.mainRoot, d.runs + d.finished, graph, diff, Applied(d.graph, diff).value);
    }
  }

  /** A load keeps the decorators guarded exactly when its graph names none. */
  lemma LoadGuarded(c: Config, d: Device, graph: Graph)
    requires Stands(c, d) && Guarded(c, d) && LoadNow(c, d, graph).ok
    ensures Guarded(c, LoadNow(c, d, graph).device) <==> NamesNoDecorator(graph, DecoratorsOf(All(d)))
  {
    var diff := LoadDiff(c, d, graph, ListOf(LoadRemoves(d.graph, c.runner, All(d), graph)));
    var rn := RunnerNode(c.runner, graph.root, d.runs + d.finished);
    LoadHangs(d.graph, c.runner, d.mainRoot, d.runs + d.finished, graph, diff, Applied(d.graph, diff).value);
    LoadTells(d.graph, c.runner, d.mainRoot, All(d), graph, diff, rn, Applied(d.graph, diff).value);
    if NamesNoDecorator(graph, DecoratorsOf(All(d))) {
    }
  }

  // Halting.

  /** The live run of a task. */
  function RunOf(runs: seq<Run>, task: Uuid): nat {
    if runs == [] then 0 else if runs[0].task == task then 0 else 1 + RunOf(runs[1..], task)
  }

  /** A run's nodes leave at once; no such live run is fine. */
  ghost function HaltResult(c: Config, d: Device, task: Uuid): Result {
    var at := RunOf(d.runs, task);
    if at >= |d.runs| then Result(d, true)
    else PruneResult(c, d.(runs := d.runs[..at] + d.runs[at + 1..]), [d.runs[at]], All(d))
  }

  lemma OneTakenOut(runs: seq<Run>, finished: seq<Run>, at: nat)
    requires at < |runs|
    ensures SetOf(runs[..at] + runs[at + 1..] + finished) + SetOf([runs[at]]) == SetOf(runs + finished)
    ensures Distinct(DecoratorList(runs + finished)) ==>
              && Distinct(DecoratorList(runs[..at] + runs[at + 1..] + finished))
              && DecoratorsOf(SetOf(runs[..at] + runs[at + 1..] + finished)) !! DecoratorsOf(SetOf([runs[at]]))
  {
    var all, rest := runs + finished, runs[..at] + runs[at + 1..] + finished;
    assert all == runs[..at] + [runs[at]] + runs[at + 1..] + finished;
    if Distinct(DecoratorList(all)) {
      var list := DecoratorList(all);
      forall i, j | 0 <= i < j < |rest| ensures DecoratorList(rest)[i] != DecoratorList(rest)[j] {
        assert list[if i < at then i else i + 1] != list[if j < at then j else j + 1];
      }
      DecoratorsTell(rest);
      forall i | 0 <= i < |rest| ensures DecoratorList(rest)[i] != runs[at].decorator {
        assert list[if i < at then i else i + 1] != list[at];
      }
    }
  }

  lemma HaltStands(c: Config, d: Device, task: Uuid)
    requires Stands(c, d)
    ensures var r := HaltResult(c, d, task); Stands(c, r.device) && (r.ok ==> Revises(c, d, r.device))
  {
    var at := RunOf(d.runs, task);
    if at < |d.runs| {
      var rest := d.(runs := d.runs[..at] + d.runs[at + 1..]);
      OneTakenOut(d.runs, d.finished, at);
      PrunedLists(c, rest, Pruned(d.graph, c.runner, d.mainRoot, SetOf([d.runs[at]])), MainOf(c, d));
      PruneStands(c, rest, [d.runs[at]], All(d));
    }
  }

  lemma OneOutOrderly(d: Device, at: nat)
    requires Orderly(d) && at < |d.runs|
    ensures Orderly(d.(runs := d.runs[..at] + d.runs[at + 1..]))
  {
    OneTakenOut(d.runs, d.finished, at);
  }

  lemma HaltOrderly(c: Config, d: Device, task: Uuid)
    requires Orderly(d)
    ensures Orderly(HaltResult(c, d, task).device)
  {
    hide Accepted, MainGraph, Pruned;
    var at := RunOf(d.runs, task);
    if at < |d.runs| {
      OneOutOrderly(d, at);
      PruneOrderly(c, d.(runs := d.runs[..at] + d.runs[at + 1..]), [d.runs[at]], All(d));
    }
  }

  lemma PruneOrderly(c: Config, d: Device, gone: seq<Run>, all: set<Run>)
    requires Orderly(d)
    ensures Orderly(PruneResult(c, d, gone, all).device)
  {
    if gone != [] {
      PrunedLists(c, d, Pruned(d.graph, c.runner, d.mainRoot, SetOf(gone)),
                  MainGraph(d.graph, c.runner, d.mainRoot, all));
    }
  }

  lemma HaltGuarded(c: Config, d: Device, task: Uuid)
    requires Stands(c, d) && Orderly(d) && Guarded(c, d)
    ensures Orderly(HaltResult(c, d, task).device) && Guarded(c, HaltResult(c, d, task).device)
  {
    HaltOrderly(c, d, task);
    var at := RunOf(d.runs, task);
    if at < |d.runs| {
      var rest, gone := d.(runs := d.runs[..at] + d.runs[at + 1..]), [d.runs[at]];
      OneTakenOut(d.runs, d.finished, at);
      RunnerIsNotPruned(d.graph, c.runner, d.mainRoot, All(d), SetOf(gone));
      PrunedGuarded(c, rest, gone, MainOf(c, d));
    }
  }

  // Spawning.

  /** An id that appears nowhere yet, as a new one does. */
  ghost predicate Untaken(d: Device, id: Uuid) {
    id !in IdsOf(d.graph.nodes) && id !in ChildrenOf(d.graph.nodes) && id !in DetachedOf(All(d)) && id !in d.published
  }

  /** A run's fragment, its decorator with it, grafted under the runner. */
  ghost function GraftResult(c: Config, d: Device, fragment: seq<Node>, run: Run): Result {
    var rn := RunnerNode(c.runner, d.mainRoot, d.runs + [run] + d.finished);
    var diff := GraphDiff([], fragment + [rn], [], [], None);
    if !Accepted(c.runner, c.Lowers(d.functions), d.graph, diff, true) then Result(d, false)
    else Result(Edited(d, diff).(runs := d.runs + [run]), true)
  }

  lemma OneMoreRun(runs: seq<Run>, finished: seq<Run>, run: Run)
    ensures SetOf(runs + [run] + finished) == SetOf(runs + finished) + {run}
    ensures Distinct(DecoratorList(runs + finished)) && run.decorator !in DecoratorsOf(SetOf(runs + finished)) ==>
              Distinct(DecoratorList(runs + [run] + finished))
  {
    var all, more := runs + finished, runs + [run] + finished;
    var list := DecoratorList(all);
    DecoratorsTell(all);
    if Distinct(list) && run.decorator !in DecoratorsOf(SetOf(all)) {
      forall i, j | 0 <= i < j < |more| ensures DecoratorList(more)[i] != DecoratorList(more)[j] {
        assert i < |runs| ==> list[i] == more[i].decorator;
        assert i > |runs| ==> list[i - 1] == more[i].decorator;
        assert j < |runs| ==> list[j] == more[j].decorator;
        assert j > |runs| ==> list[j - 1] == more[j].decorator;
      }
    }
  }

  /** A graft leaves what a read answers, and the revision. */
  lemma GraftingStands(c: Config, d: Device, fragment: seq<Node>, run: Run)
    requires Stands(c, d) && IsFragment(d.graph, fragment, run)
    ensures var r := GraftResult(c, d, fragment, run);
            Stands(c, r.device) && r.device.revision == d.revision && MainOf(c, r.device) == MainOf(c, d)
  {
    var rn := RunnerNode(c.runner, d.mainRoot, d.runs + [run] + d.finished);
    var diff := GraphDiff([], fragment + [rn], [], [], None);
    if GraftResult(c, d, fragment, run).ok {
      OneMoreRun(d.runs, d.finished, run);
      GraftWorks(d.graph, c.runner, d.mainRoot, d.runs, d.finished, fragment, run, rn, diff,
                 Applied(d.graph, diff).value);
    }
  }

  lemma UntakenIsUnused(d: Device, nodes: seq<Node>, run: Run)
    requires Untaken(d, run.decorator) && ClosedUnder(nodes, IdsOf(nodes))
    requires run.decorator !in run.detached + IdsOf(nodes)
    ensures Unused(d.graph, All(d), nodes, run)
  {
    forall n | n in d.graph.nodes ensures run.decorator !in ChildList(n) {
    }
  }

  lemma GraftingGuarded(c: Config, d: Device, nodes: seq<Node>, root: Uuid, run: Run)
    requires Stands(c, d) && Orderly(d) && Guarded(c, d) && Untaken(d, run.decorator)
    requires IsFragment(d.graph, nodes + [DecoratorNode(run.decorator, run.status, root)], run)
    requires ClosedUnder(nodes, IdsOf(nodes)) && run.detached <= IdsOf(nodes) && root in IdsOf(nodes)
    requires run.decorator !in IdsOf(nodes)
    ensures var after := GraftResult(c, d, nodes + [DecoratorNode(run.decorator, run.status, root)], run).device;
            Orderly(after) && Guarded(c, after)
  {
    var fragment := nodes + [DecoratorNode(run.decorator, run.status, root)];
    var rn := RunnerNode(c.runner, d.mainRoot, d.runs + [run] + d.finished);
    var diff := GraphDiff([], fragment + [rn], [], [], None);
    if GraftResult(c, d, fragment, run).ok {
      UntakenIsUnused(d, nodes, run);
      GraftMakes(d.graph, fragment, run, rn);
      GraftStands(d.graph, c.runner, d.mainRoot, All(d), nodes, root, run, rn, diff, Applied(d.graph, diff).value);
      OneMoreRun(d.runs, d.finished, run);
      DecoratorIsNew(d.graph, c.runner, d.mainRoot, All(d), fragment, run);
    }
  }

  // A call spawned.

  function CallNode(id: Uuid, call: Value): Node {
    Node(id, RUN_CALL, map[RUN_CALL_PARAMETER := Literal(call)], None)
  }

  function CallFragment(run: Run, id: Uuid, call: Value): seq<Node> {
    [CallNode(id, call)] + [DecoratorNode(run.decorator, run.status, id)]
  }

  ghost function SpawnAfter(c: Config, f: Result, run: Run, id: Uuid, call: Value): Result {
    if f.ok then GraftResult(c, f.device, CallFragment(run, id, call), run) else f
  }

  ghost function SpawnResult(c: Config, d: Device, run: Run, id: Uuid, call: Value): Result {
    SpawnAfter(c, FinishedResult(c, d), run, id, call)
  }

  lemma CallIsFragment(g: Graph, run: Run, id: Uuid, call: Value)
    requires id !in IdsOf(g.nodes) && run.decorator !in IdsOf(g.nodes) && run.decorator != id && run.detached == {}
    ensures IsFragment(g, CallFragment(run, id, call), run) && IdsOf([CallNode(id, call)]) == {id}
    ensures ClosedUnder([CallNode(id, call)], {id})
  {
    var n := CallNode(id, call);
    OneNodeIsTree(n);
    TreeIsFragment(g, [n], id, {}, DecoratorNode(run.decorator, run.status, id), run);
  }
}
