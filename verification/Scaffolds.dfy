/**
 The interpreter's one graph: a runner over the main behavior and the task
 runs, what is the main behavior's in it, and what an edit leaves in place.
 */
module Scaffolds {
  import opened Integers
  import opened Digraphs
  import opened Graphs
  import opened GraphEdits

  // What an edit leaves in place.

  /** A node an edit has set, but for its bindings. */
  predicate AsSet(n: Node, set_: seq<Node>) {
    exists s :: s in set_ && s.id == n.id && s.function_ == n.function_ && s.children == n.children
  }

  /** A node an edit has left, but for its bindings. */
  predicate AsLeft(n: Node, g: Graph, diff: GraphDiff) {
    && n.id !in IdsOf(diff.set_) && n.id !in diff.remove
    && exists m :: m in g.nodes && m.id == n.id && m.function_ == n.function_ && m.children == n.children
  }

  lemma {:induction false} SetAllShape(nodes: seq<Node>, set_: seq<Node>)
    requires UniqueIds(nodes)
    ensures UniqueIds(SetAll(nodes, set_)) && IdsOf(SetAll(nodes, set_)) == IdsOf(nodes) + IdsOf(set_)
    ensures forall n :: n in SetAll(nodes, set_) ==> n in set_ || (n in nodes && n.id !in IdsOf(set_))
    ensures forall n :: n in nodes && n.id !in IdsOf(set_) ==> n in SetAll(nodes, set_)
    decreases |set_|
  {
    if set_ != [] {
      var init, last := set_[..|set_| - 1], set_[|set_| - 1];
      SetAllShape(nodes, init);
      IdsSplit(set_);
      SetNodeHolds(SetAll(nodes, init), last);
      SetNodeShape(SetAll(nodes, init), last);
    }
  }

  lemma SetNodeShape(nodes: seq<Node>, n: Node)
    ensures forall m :: m in SetNode(nodes, n) ==> m == n || (m in nodes && m.id != n.id)
  {
  }

  lemma {:induction false} WithoutShape(nodes: seq<Node>, removed: set<Uuid>)
    ensures forall n :: n in Without(nodes, removed) ==>
              n.id !in removed && exists m :: m in nodes && n == m.(bind := KeptBind(m.bind, removed))
    decreases |nodes|
  {
    if nodes != [] {
      var init, last := nodes[..|nodes| - 1], nodes[|nodes| - 1];
      WithoutShape(init, removed);
      forall n | n in Without(nodes, removed)
        ensures n.id !in removed && exists m :: m in nodes && n == m.(bind := KeptBind(m.bind, removed))
      {
        if n in Without(init, removed) {
          var m :| m in init && n == m.(bind := KeptBind(m.bind, removed));
          assert m in nodes;
        } else {
          assert last in nodes;
        }
      }
    }
  }

  /** The nodes an edit sets, and those it binds or unbinds a port of. */
  function ChangedBy(diff: GraphDiff): set<Uuid> {
    IdsOf(diff.set_) + (set p | p in diff.unbind :: p.node) + (set b | b in diff.bind :: b.node)
  }

  /** The nodes left that read a removed one. */
  function UnboundBy(g: Graph, removed: set<Uuid>): set<Uuid> {
    set n | n in g.nodes && n.id !in removed && exists port :: port in n.bind && ReadsAny(n.bind[port], removed) :: n.id
  }

  /** Every node of the edited graph is as set or as left. */
  lemma EditShape(g: Graph, diff: GraphDiff)
    requires UniqueIds(g.nodes) && Applied(g, diff).Some?
    ensures var after := Applied(g, diff).value;
            && UniqueIds(after.nodes)
            && IdsOf(after.nodes) == IdsOf(g.nodes) - SetOf(diff.remove) + IdsOf(diff.set_)
            && forall n :: n in after.nodes ==> AsSet(n, diff.set_) || AsLeft(n, g, diff)
  {
    var removed := SetOf(diff.remove);
    var kept := Without(g.nodes, removed);
    var set_ := SetAll(kept, diff.set_);
    WithoutHolds(g.nodes, removed);
    WithoutShape(g.nodes, removed);
    SetAllShape(kept, diff.set_);
    ReboundAllHolds(set_, diff);
    forall n | n in ReboundAll(set_, diff) ensures AsSet(n, diff.set_) || AsLeft(n, g, diff) {
      var i :| 0 <= i < |set_| && n == Rebound(set_[i], diff);
      var m := set_[i];
      assert m in set_;
      if m !in diff.set_ {
        var was :| was in g.nodes && m == was.(bind := KeptBind(was.bind, removed));
        assert n.id !in IdsOf(diff.set_);
      }
    }
  }

  /** A node no part of an edit names, and that reads none it removes, stays as
      it is. */
  lemma UntouchedStays(g: Graph, diff: GraphDiff, n: Node)
    requires UniqueIds(g.nodes) && Applied(g, diff).Some? && n in g.nodes
    requires n.id !in diff.remove && n.id !in ChangedBy(diff) && n.id !in UnboundBy(g, SetOf(diff.remove))
    ensures n in Applied(g, diff).value.nodes
  {
    var removed := SetOf(diff.remove);
    WithoutHolds(g.nodes, removed);
    assert KeptBind(n.bind, removed) == n.bind;
    var kept := Without(g.nodes, removed);
    SetAllShape(kept, diff.set_);
    ReboundAllHolds(SetAll(kept, diff.set_), diff);
    ReboundUntouched(n, diff);
  }

  lemma ReboundUntouched(n: Node, diff: GraphDiff)
    requires n.id !in ChangedBy(diff)
    ensures Rebound(n, diff) == n
  {
    forall b | b in diff.bind ensures b.node != n.id {
      assert b.node in ChangedBy(diff);
    }
    BoundElsewhere(n.id, n.bind, diff.bind);
    forall p | p in diff.unbind ensures p.node != n.id {
      assert p.node in ChangedBy(diff);
    }
    assert UnboundOf(n, diff.unbind) == n.bind;
  }

  // The main behavior and the runs.

  /** A task run: its decorator, its status key, and the nodes of its graph
      that no node holds. */
  datatype Run = Run(task: Uuid, status: string, decorator: Uuid, detached: set<Uuid>)

  function DecoratorsOf(runs: set<Run>): set<Uuid> {
    set r | r in runs :: r.decorator
  }

  function DetachedOf(runs: set<Run>): set<Uuid> {
    set r, d | r in runs && d in r.detached :: d
  }

  function RootSet(root: Option<Uuid>): set<Uuid> {
    if root.Some? then {root.value} else {}
  }

  /** The runs' nodes. */
  ghost function HeldBy(edges: Edges<Uuid>, runs: set<Run>): set<Uuid> {
    Reach(edges, DecoratorsOf(runs)) + DetachedOf(runs)
  }

  /** What a read leaves out: the runner, and of the runs' nodes those that are
      not under the main root as well. */
  ghost function NotMain(edges: Edges<Uuid>, runner: Uuid, mainRoot: Option<Uuid>, runs: set<Run>): set<Uuid> {
    HeldBy(edges, runs) - Reach(edges, RootSet(mainRoot)) + {runner}
  }

  /** The nodes but for those `out` names, in order. */
  function Kept(nodes: seq<Node>, out: set<Uuid>): seq<Node> {
    if nodes == [] then []
    else Kept(nodes[..|nodes| - 1], out)
         + if nodes[|nodes| - 1].id in out then [] else [nodes[|nodes| - 1]]
  }

  /** What a read answers: the main behavior, rooted where it was loaded. */
  ghost function MainGraph(g: Graph, runner: Uuid, mainRoot: Option<Uuid>, runs: set<Run>): Graph {
    Graph(mainRoot, Kept(g.nodes, NotMain(Children(ById(g.nodes)), runner, mainRoot, runs)))
  }

  /** The runner is the root, over the main root and every decorator, and what
      is under it are nodes, itself not among them. */
  ghost predicate Hangs(g: Graph, runner: Uuid, mainRoot: Option<Uuid>, runs: set<Run>) {
    && UniqueIds(g.nodes) && g.root == Some(runner) && runner in IdsOf(g.nodes)
    && Reach(Children(ById(g.nodes)), NextSet(Children(ById(g.nodes)), runner)) <= IdsOf(g.nodes) - {runner}
    && RootSet(mainRoot) + DecoratorsOf(runs) <= NextSet(Children(ById(g.nodes)), runner)
    && runner !in DetachedOf(runs)
  }

  lemma NextOf(nodes: seq<Node>, n: Node)
    requires UniqueIds(nodes) && n in nodes
    ensures n.id in Children(ById(nodes)) && Next(Children(ById(nodes)), n.id) == ChildList(n)
  {
    ByIdFinds(nodes, n);
  }

  /** What hangs from the runner are nodes, the runner not among them. */
  lemma HangingAreNodes(g: Graph, runner: Uuid, mainRoot: Option<Uuid>, runs: set<Run>)
    requires Hangs(g, runner, mainRoot, runs)
    ensures Reach(Children(ById(g.nodes)), RootSet(mainRoot) + DecoratorsOf(runs)) <= IdsOf(g.nodes) - {runner}
  {
    var edges := Children(ById(g.nodes));
    ReachGrows(edges, RootSet(mainRoot) + DecoratorsOf(runs), NextSet(edges, runner));
  }

  lemma {:induction false} KeptAgree(a: seq<Node>, b: seq<Node>, outA: set<Uuid>, outB: set<Uuid>)
    requires |a| == |b|
    requires forall i :: 0 <= i < |a| ==> (a[i].id in outA <==> b[i].id in outB) && (a[i].id in outA || a[i] == b[i])
    ensures Kept(a, outA) == Kept(b, outB)
    decreases |a|
  {
    if a != [] {
      KeptAgree(a[..|a| - 1], b[..|b| - 1], outA, outB);
    }
  }

  lemma {:induction false} KeptSplits(a: seq<Node>, b: seq<Node>, out: set<Uuid>)
    ensures Kept(a + b, out) == Kept(a, out) + Kept(b, out)
    decreases |b|
  {
    if b == [] {
      assert a + b == a;
    } else {
      var init := b[..|b| - 1];
      assert (a + b)[..|a + b| - 1] == a + init;
      KeptSplits(a, init, out);
    }
  }

  lemma {:induction false} KeptNone(nodes: seq<Node>, out: set<Uuid>)
    requires IdsOf(nodes) <= out
    ensures Kept(nodes, out) == []
    decreases |nodes|
  {
    if nodes != [] {
      IdsSplit(nodes);
      KeptNone(nodes[..|nodes| - 1], out);
    }
  }

  lemma {:induction false} KeptHolds(nodes: seq<Node>, out: set<Uuid>)
    ensures forall n :: n in Kept(nodes, out) <==> n in nodes && n.id !in out
    decreases |nodes|
  {
    if nodes != [] {
      var init, last := nodes[..|nodes| - 1], nodes[|nodes| - 1];
      KeptHolds(init, out);
      assert nodes == init + [last];
    }
  }

  /** What is kept tells what was left out. */
  lemma KeptTells(nodes: seq<Node>, a: set<Uuid>, b: set<Uuid>)
    requires UniqueIds(nodes)
    ensures Kept(nodes, a) == Kept(nodes, b) <==> IdsOf(nodes) * a == IdsOf(nodes) * b
  {
    KeptHolds(nodes, a);
    KeptHolds(nodes, b);
    if Kept(nodes, a) == Kept(nodes, b) {
      forall n | n in nodes ensures n.id in a <==> n.id in b {
        assert n in Kept(nodes, a) <==> n in Kept(nodes, b);
      }
    }
    if IdsOf(nodes) * a == IdsOf(nodes) * b {
      forall i | 0 <= i < |nodes| ensures nodes[i].id in a <==> nodes[i].id in b {
        assert nodes[i] in nodes && nodes[i].id in IdsOf(nodes);
        assert nodes[i].id in IdsOf(nodes) * a <==> nodes[i].id in IdsOf(nodes) * b;
      }
      KeptAgree(nodes, nodes, a, b);
    }
  }
}
