/**
 A loaded node that a read does not answer, from an interpreter's start.

 A call is spawned and its decorator loaded as the main behavior's root, of a
 graph without nodes: it is then the main behavior's too, so the next load may
 list it.  That load lists it with no root.  The run holds it still, and no
 root reaches it, so a read leaves it out: what was loaded is not what is
 answered.

 `Loads.LoadReplaces` says of every load which of its nodes a read answers.
 */
module UnreadLoads {
  import opened Integers
  import opened Digraphs
  import opened Graphs
  import opened Scaffolds
  import opened Decorators
  import opened ScaffoldEdits
  import opened Devices
  import opened Ticking
  import opened Lifetimes
  import opened ForgottenLatches
  import opened Loads

  /** Loaded as the root, the decorator may be listed with no root, by a load
      that is accepted. */
  lemma LoadedUnrooted(c: Config, d: Device, run: Run, decorator: Node, program: Node)
    requires JustEnded(c, d, run, decorator, program) && LowersAll(c)
    ensures var one := LoadNow(c, d, Graph(Some(decorator.id), []));
            var two := LoadNow(c, one.device, Graph(None, [decorator]));
            one.ok && one.device.finished == [] && one.device.runs == [run] && two.ok
  {
    StartsAsTower(c, d, run, decorator, program);
    LoadIsAccepted(c, d, run, decorator, program, [], Some(decorator.id));
    var one := LoadNow(c, d, Graph(Some(decorator.id), [])).device;
    LoadIsAccepted(c, one, run, decorator, program, [decorator], None);
  }

  lemma HeldIsUnread(c: Config, d: Device, run: Run, n: Node)
    requires Stands(c, d) && d.runs == [run] && n.id == run.decorator && LoadResult(c, d, Graph(None, [n])).ok
    ensures n !in MainOf(c, LoadResult(c, d, Graph(None, [n])).device).nodes
  {
    hide Reach, LoadResult, MainOf, Stands;
    LoadReplaces(c, d, Graph(None, [n]));
    NothingReached(Children(ById(LoadResult(c, d, Graph(None, [n])).device.graph.nodes)));
    assert run in d.runs && n in [n];
  }

  /** From the start, a call spawned, which errs when it is ticked; its
      decorator loaded as the main root, then listed by a load with no root: a
      read does not answer the node that was loaded. */
  lemma LoadIsUnread(c: Config, run: Run, id: Uuid, call: Value)
    requires ForgottenLatches.Apart(c, run, id) && LowersAll(c)
    ensures var decorator := DecoratorNode(run.decorator, run.status, id);
            var spawned := SpawnResult(c, Initial(c), run, id, call);
            var ended := TickResult(c, spawned.device, FirstTick(run)).device;
            var rooted := LoadResult(c, ended, Graph(Some(decorator.id), []));
            var unrooted := LoadResult(c, rooted.device, Graph(None, [decorator]));
            spawned.ok && rooted.ok && unrooted.ok && decorator !in MainOf(c, unrooted.device).nodes
  {
    hide Reach, SpawnResult, TickResult, LoadNow, JustEnded, HoldsFirst, Stands, FinishedResult, MakesNewIds, MainOf;
    var decorator, first := DecoratorNode(run.decorator, run.status, id), Initial(c);
    FirstIsNew(c, run, id, call);
    FirstSpawn(c, run, id, call);
    var spawned := SpawnResult(c, first, run, id, call);
    InitialStands(c);
    StepStands(c, first, SpawnsCall(run, id, call), spawned);
    FirstTicked(c, spawned.device, run, id, call);
    TickStands(c, spawned.device, FirstTick(run));
    var ended := TickResult(c, spawned.device, FirstTick(run)).device;
    LoadedUnrooted(c, ended, run, decorator, CallNode(id, call));
    NoneFinished(c, ended, run, decorator, CallNode(id, call));
    LoadStands(c, ended, Graph(Some(decorator.id), []));
    var one := LoadNow(c, ended, Graph(Some(decorator.id), []));
    NothingFinished(c, one.device);
    HeldIsUnread(c, one.device, run, decorator);
  }
}
