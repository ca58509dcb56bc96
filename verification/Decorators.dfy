/**
 The decorators of task runs: the runner alone holds them, and no edit sets
 them again.
 */
module Decorators {
  import opened Integers
  import opened Digraphs
  import opened Graphs
  import opened GraphEdits
  import opened Scaffolds
  import opened Grafts

  const PARALLEL := Uuid(0xa93402891f30411f9faa0f07d54613e8)
  const RUN_CALL := Uuid(0x5d2e8a410b674c25913f6ed82b94a710)
  const RUN_CALL_PARAMETER := Uuid(0x9c513b7724894eb38d0251c6e9385f21)
  const RUN_STATUS := Uuid(0x1e84d06a932c4571b64d180a73c59236)
  const RUN_STATUS_OUT := Uuid(0x640f2b955e134886a2793ce1076bd442)
  const RUN_STATUS_LATCH := Uuid(0xb738912dc0544a198fe625704ca81357)

  /** A run's decorator: its latch literal starts empty, its status goes to
      the run's key, and it holds the run's root alone. */
  function DecoratorNode(decorator: Uuid, status: string, root: Uuid): Node {
    Node(decorator, RUN_STATUS, map[RUN_STATUS_LATCH := Literal(Unit), RUN_STATUS_OUT := Key(status)], Some([root]))
  }

  /** The children of every node but the runner. */
  function ChildrenBeside(nodes: seq<Node>, runner: Uuid): set<Uuid> {
    set n, child | n in nodes && n.id != runner && child in ChildList(n) :: child
  }

  predicate ReadsPorts(n: Node) {
    exists port :: port in n.bind && SourcePort(n.bind[port]).Some?
  }

  /** The nodes bound to another node's port. */
  function Readers(nodes: seq<Node>): set<Uuid> {
    set n | n in nodes && ReadsPorts(n) :: n.id
  }

  /** The runs' decorators are held by the runner alone, and read no port. */
  ghost predicate Scaffolded(g: Graph, runner: Uuid, mainRoot: Option<Uuid>, runs: set<Run>) {
    && RootSet(mainRoot) !! DecoratorsOf(runs) && DetachedOf(runs) !! DecoratorsOf(runs)
    && runner !in DecoratorsOf(runs)
    && ChildrenBeside(g.nodes, runner) !! DecoratorsOf(runs) && Readers(g.nodes) !! DecoratorsOf(runs)
  }

  lemma FewerRuns(g: Graph, runner: Uuid, mainRoot: Option<Uuid>, runs: set<Run>, fewer: set<Run>)
    requires Scaffolded(g, runner, mainRoot, runs) && fewer <= runs
    ensures DecoratorsOf(fewer) <= DecoratorsOf(runs) && Scaffolded(g, runner, mainRoot, fewer)
  {
    assert DecoratorsOf(fewer) <= DecoratorsOf(runs) && DetachedOf(fewer) <= DetachedOf(runs);
  }

  /** What an edit names, sets under a node, or removes is no decorator. */
  ghost predicate SparesDecorators(diff: GraphDiff, runner: Uuid, decorators: set<Uuid>) {
    && ChangedBy(diff) !! decorators && SetOf(diff.remove) !! decorators
    && ChildrenBeside(diff.set_, runner) !! decorators
  }

  /** An edit that spares nodes reading no port leaves them as they are, none
      of them afresh. */
  lemma SparedStay(g: Graph, diff: GraphDiff, runner: Uuid, spared: set<Uuid>)
    requires UniqueIds(g.nodes) && Applied(g, diff).Some? && SparesDecorators(diff, runner, spared)
    requires Readers(g.nodes) !! spared
    ensures ChangedBy(diff) + UnboundBy(g, SetOf(diff.remove)) !! spared
    ensures forall n :: n in g.nodes && n.id in spared ==> n in Applied(g, diff).value.nodes
    ensures Readers(Applied(g, diff).value.nodes) !! spared
  {
    var removed, after := SetOf(diff.remove), Applied(g, diff).value;
    assert UnboundBy(g, removed) <= Readers(g.nodes) by {
      UnboundRead(g, removed);
    }
    SetOfHas(diff.remove);
    forall n | n in g.nodes && n.id in spared ensures n in after.nodes {
      UntouchedStays(g, diff, n);
    }
    EditShape(g, diff);
    forall n | n in after.nodes && n.id in spared ensures n in g.nodes {
      assert n.id in IdsOf(after.nodes) && IdsOf(diff.set_) <= ChangedBy(diff);
      var m :| m in g.nodes && m.id == n.id;
      OneOfAnId(after.nodes, m, n);
    }
  }

  lemma UnboundRead(g: Graph, removed: set<Uuid>)
    ensures UnboundBy(g, removed) <= Readers(g.nodes)
  {
    forall n, port | n in g.nodes && port in n.bind && ReadsAny(n.bind[port], removed) ensures ReadsPorts(n) {
    }
  }

  /** A node that reads no port and that an edit does not name starts nothing
      afresh, and if it is left it stands as it did. */
  lemma UnnamedStays(g: Graph, diff: GraphDiff, id: Uuid)
    requires UniqueIds(g.nodes) && Applied(g, diff).Some? && id !in ChangedBy(diff) && id !in Readers(g.nodes)
    ensures id !in UnboundBy(g, SetOf(diff.remove))
    ensures forall n :: n in Applied(g, diff).value.nodes && n.id == id ==> n in g.nodes
  {
    var removed, after := SetOf(diff.remove), Applied(g, diff).value;
    UnboundRead(g, removed);
    SetOfHas(diff.remove);
    EditShape(g, diff);
    forall n | n in after.nodes && n.id == id ensures n in g.nodes {
      assert id in IdsOf(after.nodes) && id !in IdsOf(diff.set_);
      var m :| m in g.nodes && m.id == id;
      UntouchedStays(g, diff, m);
      OneOfAnId(after.nodes, m, n);
    }
  }

  /** An edit that spares them leaves the decorators to the runner alone. */
  lemma EditKeepsDecorators(g: Graph, diff: GraphDiff, runner: Uuid, mainRoot: Option<Uuid>, runs: set<Run>,
                            root: Option<Uuid>)
    requires UniqueIds(g.nodes) && Scaffolded(g, runner, mainRoot, runs) && Applied(g, diff).Some?
    requires SparesDecorators(diff, runner, DecoratorsOf(runs)) && RootSet(root) !! DecoratorsOf(runs)
    ensures Scaffolded(Applied(g, diff).value, runner, root, runs)
    ensures ChangedBy(diff) + UnboundBy(g, SetOf(diff.remove)) !! DecoratorsOf(runs)
    ensures forall n :: n in g.nodes && n.id in DecoratorsOf(runs) ==> n in Applied(g, diff).value.nodes
  {
    SparedStay(g, diff, runner, DecoratorsOf(runs));
    EditedChildren(g, diff, runner);
  }

  /** The children after an edit are those left and those set. */
  lemma EditedChildren(g: Graph, diff: GraphDiff, runner: Uuid)
    requires UniqueIds(g.nodes) && Applied(g, diff).Some?
    ensures ChildrenBeside(Applied(g, diff).value.nodes, runner)
            <= ChildrenBeside(g.nodes, runner) + ChildrenBeside(diff.set_, runner)
  {
    EditShape(g, diff);
    var after := Applied(g, diff).value;
    forall n, child | n in after.nodes && n.id != runner && child in ChildList(n)
      ensures child in ChildrenBeside(g.nodes, runner) + ChildrenBeside(diff.set_, runner)
    {
      if AsSet(n, diff.set_) {
        var s :| s in diff.set_ && s.id == n.id && s.function_ == n.function_ && s.children == n.children;
        assert child in ChildList(s);
      } else {
        var m :| m in g.nodes && m.id == n.id && m.function_ == n.function_ && m.children == n.children;
        assert child in ChildList(m);
      }
    }
  }

  /** Nothing but the runner leads to a decorator. */
  lemma DecoratorsAreApart(g: Graph, runner: Uuid, mainRoot: Option<Uuid>, runs: set<Run>, starts: set<Uuid>)
    requires UniqueIds(g.nodes) && Scaffolded(g, runner, mainRoot, runs) && starts !! DecoratorsOf(runs)
    requires runner !in Reach(Children(ById(g.nodes)), starts)
    ensures Reach(Children(ById(g.nodes)), starts) !! DecoratorsOf(runs)
  {
    var edges := Children(ById(g.nodes));
    var there := Reach(edges, starts) - DecoratorsOf(runs);
    ByIdKeys(g.nodes);
    forall id, child | id in there && child in Next(edges, id) ensures child in there {
      var n :| n in g.nodes && n.id == id;
      NextOf(g.nodes, n);
      assert child in ChildrenBeside(g.nodes, runner);
    }
    ReachIsLeast(edges, starts, there);
  }
}
