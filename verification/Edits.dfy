/** What applying a diff leaves, node by node and port by port. */
module Edits {
  import opened Integers
  import opened Digraphs
  import opened Graphs
  import opened GraphEdits
  import opened Scaffolds

  /** The last of the nodes of an id. */
  predicate LastOfId(nodes: seq<Node>, i: nat, id: Uuid) {
    i < |nodes| && nodes[i].id == id && forall j :: i < j < |nodes| ==> nodes[j].id != id
  }

  /** The last of the bindings of a port. */
  predicate LastOfPort(bindings: seq<Binding>, i: nat, id: Uuid, port: Uuid) {
    && i < |bindings| && bindings[i].node == id && bindings[i].port == port
    && forall j :: i < j < |bindings| ==> !(bindings[j].node == id && bindings[j].port == port)
  }

  predicate BindsPort(bindings: seq<Binding>, id: Uuid, port: Uuid) {
    exists b :: b in bindings && b.node == id && b.port == port
  }

  /** A binding reads a node through any number of selections. */
  lemma ReadsTells(value: Value, key: string, port: Port, source: Source, selection: string, ids: set<Uuid>)
    ensures !ReadsAny(Literal(value), ids) && !ReadsAny(Key(key), ids)
    ensures ReadsAny(Reads(port), ids) <==> port.node in ids
    ensures ReadsAny(Select(source, selection), ids) <==> ReadsAny(source, ids)
  {
  }

  lemma {:induction false} SetAllLast(nodes: seq<Node>, set_: seq<Node>, n: Node) returns (i: nat)
    requires UniqueIds(nodes) && n in SetAll(nodes, set_)
    ensures n.id in IdsOf(set_) ==> LastOfId(set_, i, n.id) && set_[i] == n
    ensures n.id !in IdsOf(set_) ==> n in nodes
    decreases |set_|
  {
    hide UniqueIds, SetNode;
    i := 0;
    if set_ != [] {
      var init, last := set_[..|set_| - 1], set_[|set_| - 1];
      IdsSplit(set_);
      SetNodeShape(SetAll(nodes, init), last);
      if n == last {
        i := |set_| - 1;
      } else {
        i := SetAllLast(nodes, init, n);
        assert n.id in IdsOf(init) ==> i < |init| && init[i] == set_[i];
      }
    }
  }

  lemma {:induction false} BoundLast(id: Uuid, bind: map<Uuid, Source>, bindings: seq<Binding>, port: Uuid, i: nat)
    requires LastOfPort(bindings, i, id, port)
    ensures port in BoundOf(id, bind, bindings) && BoundOf(id, bind, bindings)[port] == bindings[i].source
    decreases |bindings|
  {
    if i < |bindings| - 1 {
      BoundLast(id, bind, bindings[..|bindings| - 1], port, i);
    }
  }

  lemma {:induction false} BoundNone(id: Uuid, bind: map<Uuid, Source>, bindings: seq<Binding>, port: Uuid)
    requires !BindsPort(bindings, id, port)
    ensures var after := BoundOf(id, bind, bindings);
            (port in after <==> port in bind) && (port in bind ==> after[port] == bind[port])
    decreases |bindings|
  {
    if bindings != [] {
      var init, last := bindings[..|bindings| - 1], bindings[|bindings| - 1];
      assert last in bindings && forall b :: b in init ==> b in bindings;
      BoundNone(id, bind, init, port);
    }
  }

  /** A node as it was, but for the bindings that read what is removed. */
  ghost predicate LeftOf(m: Node, removed: set<Uuid>, n: Node) {
    && n.id == m.id && n.id !in removed && n.function_ == m.function_ && n.children == m.children
    && forall port :: (port in n.bind <==> port in m.bind && !ReadsAny(m.bind[port], removed))
                      && (port in n.bind ==> n.bind[port] == m.bind[port])
  }

  /** What a node is before its ports are unbound and bound: the last set of its
      id, or as it was left. */
  ghost predicate ComesFrom(g: Graph, removed: set<Uuid>, set_: seq<Node>, base: Node) {
    if base.id in IdsOf(set_) then exists i: nat :: LastOfId(set_, i, base.id) && set_[i] == base
    else exists m :: m in g.nodes && LeftOf(m, removed, base)
  }

  /** Each port bound takes the source the last binding of it gives, each
      unbound one none, and every other what it had. */
  ghost predicate PortsOf(diff: GraphDiff, base: Node, n: Node) {
    forall port ::
      && (forall i: nat :: LastOfPort(diff.bind, i, n.id, port) ==>
            port in n.bind && n.bind[port] == diff.bind[i].source)
      && (!BindsPort(diff.bind, n.id, port) && Port(n.id, port) in diff.unbind ==> port !in n.bind)
      && (!BindsPort(diff.bind, n.id, port) && Port(n.id, port) !in diff.unbind ==>
            (port in n.bind <==> port in base.bind) && (port in n.bind ==> n.bind[port] == base.bind[port]))
  }

  ghost predicate Given(g: Graph, removed: set<Uuid>, diff: GraphDiff, n: Node) {
    exists base ::
      && ComesFrom(g, removed, diff.set_, base) && PortsOf(diff, base, n)
      && n.id == base.id && n.function_ == base.function_ && n.children == base.children
  }

  lemma WithoutLeaves(nodes: seq<Node>, removed: set<Uuid>, n: Node)
    requires UniqueIds(nodes) && n in Without(nodes, removed)
    ensures exists m :: m in nodes && LeftOf(m, removed, n)
  {
    WithoutShape(nodes, removed);
    var m :| m in nodes && n == m.(bind := KeptBind(m.bind, removed));
    assert LeftOf(m, removed, n);
  }

  lemma ReboundPorts(diff: GraphDiff, base: Node)
    ensures PortsOf(diff, base, Rebound(base, diff))
  {
    hide BoundOf, BindsPort;
    var n, unbound := Rebound(base, diff), UnboundOf(base, diff.unbind);
    forall port, i: nat | LastOfPort(diff.bind, i, n.id, port)
      ensures port in n.bind && n.bind[port] == diff.bind[i].source
    {
      BoundLast(base.id, unbound, diff.bind, port, i);
    }
    forall port | !BindsPort(diff.bind, n.id, port)
      ensures (port in n.bind <==> port in unbound) && (port in n.bind ==> n.bind[port] == unbound[port])
    {
      BoundNone(base.id, unbound, diff.bind, port);
    }
  }

  /**
   An edit that applies leaves a node for each id it sets and for each it does
   not remove, one of each id; every node comes from what was set or left, with
   its ports bound as the edit says; and the root is the edit's, or the one
   there was unless it was removed.
   */
  lemma EditGives(g: Graph, diff: GraphDiff)
    requires UniqueIds(g.nodes) && Applied(g, diff).Some?
    ensures var removed, after := (set id | id in diff.remove), Applied(g, diff).value;
            && UniqueIds(after.nodes) && IdsOf(after.nodes) == IdsOf(g.nodes) - removed + IdsOf(diff.set_)
            && (forall n :: n in after.nodes ==> Given(g, removed, diff, n))
            && after.root == (if diff.root.Some? then diff.root
                              else if g.root.Some? && g.root.value in diff.remove then None else g.root)
  {
    hide SetAll, Without, UniqueIds, PortsOf, ComesFrom;
    var removed, after := SetOf(diff.remove), Applied(g, diff).value;
    EditShape(g, diff);
    SetOfHas(diff.remove);
    assert removed == set id | id in diff.remove;
    forall n | n in after.nodes ensures Given(g, removed, diff, n) {
      var set_ := SetAll(Without(g.nodes, removed), diff.set_);
      var i :| 0 <= i < |set_| && n == Rebound(set_[i], diff);
      ReboundPorts(diff, set_[i]);
      SetComesFrom(g, removed, diff.set_, set_[i]);
    }
  }

  /** It does not apply exactly when it binds a port of a node that it does not set
      and that is not left. */
  lemma EditApplies(g: Graph, diff: GraphDiff)
    ensures Applied(g, diff).None?
            <==> exists b :: b in diff.bind && (forall s :: s in diff.set_ ==> s.id != b.node)
                             && (b.node in diff.remove || forall n :: n in g.nodes ==> n.id != b.node)
  {
    SetOfHas(diff.remove);
    forall id ensures id in IdsOf(diff.set_) <==> exists s :: s in diff.set_ && s.id == id {
    }
    forall id ensures id in IdsOf(g.nodes) <==> exists n :: n in g.nodes && n.id == id {
    }
  }

  lemma SetComesFrom(g: Graph, removed: set<Uuid>, set_: seq<Node>, base: Node)
    requires UniqueIds(g.nodes) && base in SetAll(Without(g.nodes, removed), set_)
    ensures ComesFrom(g, removed, set_, base)
  {
    hide SetAll, Without, UniqueIds, LeftOf;
    WithoutHolds(g.nodes, removed);
    var i := SetAllLast(Without(g.nodes, removed), set_, base);
    if base.id !in IdsOf(set_) {
      WithoutLeaves(g.nodes, removed, base);
    }
  }
}
