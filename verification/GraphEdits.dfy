/** Edits of a graph: applying a diff, and the diff between two graphs. */
module GraphEdits {
  import opened Digraphs
  import opened Integers
  import opened Graphs

  datatype Binding = Binding(node: Uuid, port: Uuid, source: Source)

  datatype GraphDiff = GraphDiff(
    remove: seq<Uuid>,
    set_: seq<Node>,
    unbind: seq<Port>,
    bind: seq<Binding>,
    root: Option<Uuid>)

  const NO_CHANGE := GraphDiff([], [], [], [], None)

  function IdList(nodes: seq<Node>): (ids: seq<Uuid>) {
    seq(|nodes|, i requires 0 <= i < |nodes| => nodes[i].id)
  }

  // Applying a diff.

  /** The bindings that read no removed node. */
  function KeptBind(bind: map<Uuid, Source>, removed: set<Uuid>): map<Uuid, Source> {
    map port | port in bind && !ReadsAny(bind[port], removed) :: bind[port]
  }

  function Without(nodes: seq<Node>, removed: set<Uuid>): seq<Node> {
    if nodes == [] then []
    else
      var rest, last := Without(nodes[..|nodes| - 1], removed), nodes[|nodes| - 1];
      if last.id in removed then rest else rest + [last.(bind := KeptBind(last.bind, removed))]
  }

  /** `n` in the place of the node of its id, or after the others. */
  function SetNode(nodes: seq<Node>, n: Node): seq<Node> {
    if n.id in IdsOf(nodes)
    then seq(|nodes|, i requires 0 <= i < |nodes| => if nodes[i].id == n.id then n else nodes[i])
    else nodes + [n]
  }

  function SetAll(nodes: seq<Node>, set_: seq<Node>): seq<Node>
    decreases |set_|
  {
    if set_ == [] then nodes
    else SetNode(SetAll(nodes, set_[..|set_| - 1]), set_[|set_| - 1])
  }

  function UnboundOf(n: Node, unbind: seq<Port>): map<Uuid, Source> {
    map port | port in n.bind && Port(n.id, port) !in unbind :: n.bind[port]
  }

  /** The last of several bindings of one port stands. */
  function BoundOf(id: Uuid, bind: map<Uuid, Source>, bindings: seq<Binding>): map<Uuid, Source>
    decreases |bindings|
  {
    if bindings == [] then bind
    else
      var before, last := BoundOf(id, bind, bindings[..|bindings| - 1]), bindings[|bindings| - 1];
      if last.node == id then before[last.port := last.source] else before
  }

  function Rebound(n: Node, diff: GraphDiff): Node {
    n.(bind := BoundOf(n.id, UnboundOf(n, diff.unbind), diff.bind))
  }

  function ReboundAll(nodes: seq<Node>, diff: GraphDiff): seq<Node> {
    seq(|nodes|, i requires 0 <= i < |nodes| => Rebound(nodes[i], diff))
  }

  /** The graph after `diff`; none when it binds a port on no node. */
  function Applied(g: Graph, diff: GraphDiff): Option<Graph> {
    var removed := SetOf(diff.remove);
    if exists b :: b in diff.bind && b.node !in IdsOf(g.nodes) - removed + IdsOf(diff.set_) then None
    else
      var root := if g.root.Some? && g.root.value in removed then None else g.root;
      Some(Graph(
        if diff.root.Some? then diff.root else root,
        ReboundAll(SetAll(Without(g.nodes, removed), diff.set_), diff)))
  }

  lemma {:induction false} WithoutHolds(nodes: seq<Node>, removed: set<Uuid>)
    requires UniqueIds(nodes)
    ensures UniqueIds(Without(nodes, removed))
    ensures IdsOf(Without(nodes, removed)) == IdsOf(nodes) - removed
    ensures forall n :: n in nodes && n.id !in removed ==>
              n.(bind := KeptBind(n.bind, removed)) in Without(nodes, removed)
    decreases |nodes|
  {
    if nodes != [] {
      var init, last := nodes[..|nodes| - 1], nodes[|nodes| - 1];
      UniqueSplits(nodes);
      WithoutHolds(init, removed);
      assert nodes == init + [last];
      var kept := Without(nodes, removed);
      assert IdsOf(nodes) == IdsOf(init) + {last.id};
      if last.id !in removed {
        assert kept[..|kept| - 1] == Without(init, removed);
        UniqueSplits(kept);
        assert IdsOf(kept) == IdsOf(Without(init, removed)) + {last.id};
      }
    }
  }

  lemma SetNodeHolds(nodes: seq<Node>, n: Node)
    requires UniqueIds(nodes)
    ensures UniqueIds(SetNode(nodes, n))
    ensures IdsOf(SetNode(nodes, n)) == IdsOf(nodes) + {n.id}
    ensures n in SetNode(nodes, n)
    ensures forall m :: m in nodes && m.id != n.id ==> m in SetNode(nodes, n)
  {
    var after := SetNode(nodes, n);
    if n.id in IdsOf(nodes) {
      assert forall i :: 0 <= i < |nodes| ==> after[i].id == nodes[i].id;
      var was :| was in nodes && was.id == n.id;
      var at :| 0 <= at < |nodes| && nodes[at] == was;
      assert after[at] == n;
      forall m | m in nodes && m.id != n.id ensures m in after {
        var i :| 0 <= i < |nodes| && nodes[i] == m;
        assert after[i] == m;
      }
      forall id | id in IdsOf(nodes) ensures id in IdsOf(after) {
        var m :| m in nodes && m.id == id;
        if m.id != n.id {
          assert m in after;
        }
      }
    } else {
      assert after[..|after| - 1] == nodes;
      UniqueSplits(after);
    }
  }

  lemma IdsSplit(nodes: seq<Node>)
    requires nodes != []
    ensures IdsOf(nodes) == IdsOf(nodes[..|nodes| - 1]) + {nodes[|nodes| - 1].id}
    ensures forall n :: n in nodes <==> n in nodes[..|nodes| - 1] || n == nodes[|nodes| - 1]
  {
    assert nodes == nodes[..|nodes| - 1] + [nodes[|nodes| - 1]];
  }

  lemma {:induction false} SetAllIds(nodes: seq<Node>, set_: seq<Node>)
    requires UniqueIds(nodes) && UniqueIds(set_)
    ensures UniqueIds(SetAll(nodes, set_))
    ensures IdsOf(SetAll(nodes, set_)) == IdsOf(nodes) + IdsOf(set_)
    decreases |set_|
  {
    if set_ != [] {
      var init, last := set_[..|set_| - 1], set_[|set_| - 1];
      UniqueSplits(set_);
      SetAllIds(nodes, init);
      SetNodeHolds(SetAll(nodes, init), last);
      IdsSplit(set_);
    }
  }

  /** A node set stands, and so does one of an id not set. */
  lemma {:induction false} SetAllKeeps(nodes: seq<Node>, set_: seq<Node>, n: Node)
    requires UniqueIds(nodes) && UniqueIds(set_)
    requires n in set_ || (n in nodes && n.id !in IdsOf(set_))
    ensures n in SetAll(nodes, set_)
    decreases |set_|
  {
    if set_ != [] {
      var init, last := set_[..|set_| - 1], set_[|set_| - 1];
      UniqueSplits(set_);
      IdsSplit(set_);
      SetAllIds(nodes, init);
      SetNodeHolds(SetAll(nodes, init), last);
      if n != last {
        assert n in init ==> n.id in IdsOf(init);
        SetAllKeeps(nodes, init, n);
      }
    }
  }

  lemma SetAllHolds(nodes: seq<Node>, set_: seq<Node>)
    requires UniqueIds(nodes) && UniqueIds(set_)
    ensures UniqueIds(SetAll(nodes, set_))
    ensures IdsOf(SetAll(nodes, set_)) == IdsOf(nodes) + IdsOf(set_)
    ensures forall n :: n in set_ ==> n in SetAll(nodes, set_)
    ensures forall n :: n in nodes && n.id !in IdsOf(set_) ==> n in SetAll(nodes, set_)
  {
    SetAllIds(nodes, set_);
    forall n | n in set_ || (n in nodes && n.id !in IdsOf(set_)) ensures n in SetAll(nodes, set_) {
      SetAllKeeps(nodes, set_, n);
    }
  }

  /** Two lists of nodes by id alike: no node of the one differs. */
  lemma SameById(a: seq<Node>, b: seq<Node>)
    requires UniqueIds(a) && UniqueIds(b) && IdsOf(a) == IdsOf(b)
    requires forall n :: n in a ==> n in b
    ensures ById(a) == ById(b)
  {
    hide UniqueIds, IdsOf;
    ByIdKeys(a);
    ByIdKeys(b);
    forall id | id in ById(a) ensures ById(a)[id] == ById(b)[id] {
      ByIdFinds(b, ById(a)[id]);
    }
  }

  // The diff between two graphs.

  /** The root `to` drops: one it keeps as a node is removed and set again. */
  function Unrooted(from: Graph, to: Graph): Option<Uuid> {
    if from.root.Some? && to.root.None?
       && (from.root.value !in IdsOf(from.nodes) || from.root.value in IdsOf(to.nodes))
    then from.root else None
  }

  /** The ids of `ids` that `keep` holds, in order. */
  function Only(ids: seq<Uuid>, keep: set<Uuid>): seq<Uuid> {
    if ids == [] then []
    else Only(ids[..|ids| - 1], keep) + if ids[|ids| - 1] in keep then [ids[|ids| - 1]] else []
  }

  lemma {:induction false} OnlyHolds(ids: seq<Uuid>, keep: set<Uuid>)
    ensures SetOf(Only(ids, keep)) == SetOf(ids) * keep
    decreases |ids|
  {
    if ids != [] {
      var init, last := ids[..|ids| - 1], ids[|ids| - 1];
      OnlyHolds(init, keep);
      assert ids == init + [last];
      assert SetOf(ids) == SetOf(init) + {last};
      assert SetOf(Only(ids, keep)) == SetOf(Only(init, keep)) + if last in keep then {last} else {};
    }
  }

  function RemovedIds(from: Graph, to: Graph): set<Uuid> {
    var unrooted := Unrooted(from, to);
    IdsOf(from.nodes) - IdsOf(to.nodes) + if unrooted.Some? then {unrooted.value} else {}
  }

  /** A node only its bindings differ in, if at all. */
  predicate Stays(from: Graph, to: Graph, n: Node) {
    var ours := ById(from.nodes);
    && n.id in ours && n.id !in RemovedIds(from, to)
    && ours[n.id].function_ == n.function_ && ours[n.id].children == n.children
  }

  /** The nodes of `to` set whole, in its order. */
  function SetWhole(from: Graph, to: Graph, nodes: seq<Node>): seq<Node> {
    if nodes == [] then []
    else
      var last := nodes[|nodes| - 1];
      SetWhole(from, to, nodes[..|nodes| - 1]) + if Stays(from, to, last) then [] else [last]
  }

  predicate ToBind(from: Graph, to: Graph, b: Binding) {
    var ours, theirs := ById(from.nodes), ById(to.nodes);
    && b.node in theirs && Stays(from, to, theirs[b.node])
    && b.port in theirs[b.node].bind && theirs[b.node].bind[b.port] == b.source
    && (b.port !in ours[b.node].bind || ours[b.node].bind[b.port] != b.source
        || ReadsAny(b.source, RemovedIds(from, to)))
  }

  predicate ToUnbind(from: Graph, to: Graph, p: Port) {
    var ours, theirs := ById(from.nodes), ById(to.nodes);
    && p.node in theirs && Stays(from, to, theirs[p.node])
    && p.port in ours[p.node].bind && p.port !in theirs[p.node].bind
    && !ReadsAny(ours[p.node].bind[p.port], RemovedIds(from, to))
  }

  function NewRoot(from: Graph, to: Graph): Option<Uuid> {
    var left := if from.root.Some? && from.root.value in RemovedIds(from, to) then None else from.root;
    if to.root.Some? && to.root != left then to.root else None
  }

  /** `diff` is the diff from the one graph to the other; the bindings of a
      node are listed in whatever order. */
  ghost predicate IsDiff(from: Graph, to: Graph, diff: GraphDiff) {
    && SetOf(diff.remove) == RemovedIds(from, to)
    && diff.set_ == SetWhole(from, to, to.nodes)
    && (forall b :: b in diff.bind <==> ToBind(from, to, b))
    && (forall p :: p in diff.unbind <==> ToUnbind(from, to, p))
    && diff.root == NewRoot(from, to)
  }

  lemma {:induction false} SetWholeHolds(from: Graph, to: Graph, nodes: seq<Node>)
    requires UniqueIds(nodes)
    ensures UniqueIds(SetWhole(from, to, nodes))
    ensures forall n :: n in SetWhole(from, to, nodes) <==> n in nodes && !Stays(from, to, n)
    decreases |nodes|
  {
    if nodes != [] {
      var init, last := nodes[..|nodes| - 1], nodes[|nodes| - 1];
      UniqueSplits(nodes);
      SetWholeHolds(from, to, init);
      assert nodes == init + [last];
      var all := SetWhole(from, to, nodes);
      if !Stays(from, to, last) {
        assert all[..|all| - 1] == SetWhole(from, to, init);
        UniqueSplits(all);
      }
    }
  }

  /** What a list of bindings makes of a node's, when none of its ports is
      bound twice over. */
  lemma {:induction false} BoundHolds(id: Uuid, bind: map<Uuid, Source>, bindings: seq<Binding>, port: Uuid)
    requires forall b, c :: b in bindings && c in bindings && b.node == c.node == id && b.port == c.port == port ==>
               b.source == c.source
    ensures var after := BoundOf(id, bind, bindings);
            && (forall b :: b in bindings && b.node == id && b.port == port ==>
                  port in after && after[port] == b.source)
            && ((forall b :: b in bindings ==> !(b.node == id && b.port == port)) ==>
                  (port in after <==> port in bind) && (port in bind ==> after[port] == bind[port]))
    decreases |bindings|
  {
    if bindings != [] {
      var init, last := bindings[..|bindings| - 1], bindings[|bindings| - 1];
      assert bindings == init + [last];
      BoundHolds(id, bind, init, port);
      if exists b :: b in bindings && b.node == id && b.port == port {
        if last.node == id && last.port == port {
          assert last in bindings;
        } else {
          var b :| b in bindings && b.node == id && b.port == port;
          assert b in init;
        }
      }
    }
  }

  /** A node that stays ends with the bindings it has in `to`. */
  lemma StayingIsRebound(from: Graph, to: Graph, diff: GraphDiff, n: Node)
    requires UniqueIds(from.nodes) && UniqueIds(to.nodes) && IsDiff(from, to, diff)
    requires n in to.nodes && Stays(from, to, n)
    ensures var was := ById(from.nodes)[n.id];
            Rebound(was.(bind := KeptBind(was.bind, RemovedIds(from, to))), diff) == n
  {
    var removed := RemovedIds(from, to);
    var was := ById(from.nodes)[n.id];
    var kept := was.(bind := KeptBind(was.bind, removed));
    ByIdFinds(to.nodes, n);
    var unbound := UnboundOf(kept, diff.unbind);
    var after := BoundOf(n.id, unbound, diff.bind);
    forall port
      ensures (port in after <==> port in n.bind) && (port in n.bind ==> port in after && after[port] == n.bind[port])
    {
      BoundHolds(n.id, unbound, diff.bind, port);
      if port in n.bind {
        var b := Binding(n.id, port, n.bind[port]);
        if ToBind(from, to, b) {
          assert b in diff.bind;
        } else {
          assert port in kept.bind && Port(n.id, port) !in diff.unbind;
          forall c | c in diff.bind ensures !(c.node == n.id && c.port == port) {
            assert ToBind(from, to, c);
          }
        }
      } else {
        assert port in kept.bind ==> ToUnbind(from, to, Port(n.id, port));
        forall c | c in diff.bind ensures !(c.node == n.id && c.port == port) {
          assert ToBind(from, to, c);
        }
      }
    }
    assert after == n.bind;
  }

  lemma ReboundAllHolds(nodes: seq<Node>, diff: GraphDiff)
    requires UniqueIds(nodes)
    ensures UniqueIds(ReboundAll(nodes, diff)) && IdsOf(ReboundAll(nodes, diff)) == IdsOf(nodes)
    ensures IdList(ReboundAll(nodes, diff)) == IdList(nodes)
    ensures forall n :: n in nodes ==> Rebound(n, diff) in ReboundAll(nodes, diff)
  {
    var after := ReboundAll(nodes, diff);
    assert forall i :: 0 <= i < |nodes| ==> after[i].id == nodes[i].id;
    forall n | n in nodes ensures Rebound(n, diff) in after {
      var i :| 0 <= i < |nodes| && nodes[i] == n;
      assert after[i] == Rebound(n, diff);
    }
    forall id | id in IdsOf(nodes) ensures id in IdsOf(after) {
      var n :| n in nodes && n.id == id;
      assert Rebound(n, diff).id == id;
    }
  }

  /** Nothing is bound on a node set whole. */
  lemma SetWholeIsKept(from: Graph, to: Graph, diff: GraphDiff, n: Node)
    requires UniqueIds(to.nodes) && IsDiff(from, to, diff) && n in to.nodes && !Stays(from, to, n)
    ensures Rebound(n, diff) == n
  {
    ByIdFinds(to.nodes, n);
    assert UnboundOf(n, diff.unbind) == n.bind;
    forall b | b in diff.bind ensures b.node != n.id {
      assert ToBind(from, to, b);
    }
    BoundElsewhere(n.id, n.bind, diff.bind);
  }

  lemma {:induction false} BoundElsewhere(id: Uuid, bind: map<Uuid, Source>, bindings: seq<Binding>)
    requires forall b :: b in bindings ==> b.node != id
    ensures BoundOf(id, bind, bindings) == bind
    decreases |bindings|
  {
    if bindings != [] {
      BoundElsewhere(id, bind, bindings[..|bindings| - 1]);
    }
  }

  lemma DiffIds(from: Graph, to: Graph, diff: GraphDiff)
    requires UniqueIds(from.nodes) && UniqueIds(to.nodes) && IsDiff(from, to, diff)
    ensures IdsOf(from.nodes) - RemovedIds(from, to) + IdsOf(diff.set_) == IdsOf(to.nodes)
  {
    SetWholeHolds(from, to, to.nodes);
    var removed := RemovedIds(from, to);
    forall id | id in IdsOf(to.nodes) ensures id in IdsOf(from.nodes) - removed + IdsOf(diff.set_) {
      var n :| n in to.nodes && n.id == id;
      if !Stays(from, to, n) {
        assert n in diff.set_;
      }
    }
    forall id | id in IdsOf(diff.set_) ensures id in IdsOf(to.nodes) {
      var n :| n in diff.set_ && n.id == id;
    }
  }

  /** Every node of `to` is a node of the graph the diff makes. */
  lemma TargetNodeIsMade(from: Graph, to: Graph, diff: GraphDiff, n: Node)
    requires UniqueIds(from.nodes) && UniqueIds(to.nodes) && IsDiff(from, to, diff) && n in to.nodes
    ensures n in ReboundAll(SetAll(Without(from.nodes, RemovedIds(from, to)), diff.set_), diff)
  {
    var removed := RemovedIds(from, to);
    var kept := Without(from.nodes, removed);
    var set_ := SetAll(kept, diff.set_);
    WithoutHolds(from.nodes, removed);
    SetWholeHolds(from, to, to.nodes);
    SetAllHolds(kept, diff.set_);
    ReboundAllHolds(set_, diff);
    if Stays(from, to, n) {
      var was := ById(from.nodes)[n.id];
      var left := was.(bind := KeptBind(was.bind, removed));
      forall m | m in diff.set_ ensures m.id != n.id {
        ByIdFinds(to.nodes, n);
        ByIdFinds(to.nodes, m);
      }
      assert left in set_;
      StayingIsRebound(from, to, diff, n);
    } else {
      SetWholeIsKept(from, to, diff, n);
      assert n in set_;
    }
  }

  /**
   Applying the diff between two graphs to the one gives the other's root
   and nodes.
   */
  lemma DiffTakesToTarget(from: Graph, to: Graph, diff: GraphDiff)
    requires UniqueIds(from.nodes) && UniqueIds(to.nodes) && IsDiff(from, to, diff)
    ensures Applied(from, diff).Some?
    ensures var made := Applied(from, diff).value;
            made.root == to.root && UniqueIds(made.nodes) && ById(made.nodes) == ById(to.nodes)
  {
    var removed := RemovedIds(from, to);
    DiffIds(from, to, diff);
    forall b | b in diff.bind ensures b.node in IdsOf(from.nodes) - removed + IdsOf(diff.set_) {
      assert ToBind(from, to, b);
    }
    var made := Applied(from, diff).value;
    WithoutHolds(from.nodes, removed);
    SetWholeHolds(from, to, to.nodes);
    SetAllHolds(Without(from.nodes, removed), diff.set_);
    ReboundAllHolds(SetAll(Without(from.nodes, removed), diff.set_), diff);
    forall n | n in to.nodes ensures n in made.nodes {
      TargetNodeIsMade(from, to, diff, n);
    }
    SameById(to.nodes, made.nodes);
    RootIsMade(from, to);
  }

  lemma RootIsMade(from: Graph, to: Graph)
    ensures var left := if from.root.Some? && from.root.value in RemovedIds(from, to) then None else from.root;
            (if NewRoot(from, to).Some? then NewRoot(from, to) else left) == to.root
  {
  }

  /** A diff changes nothing exactly when there is nothing to change. */
  lemma NoChangeIsSame(from: Graph, to: Graph, diff: GraphDiff)
    requires UniqueIds(from.nodes) && UniqueIds(to.nodes) && IsDiff(from, to, diff)
    ensures diff == NO_CHANGE <==> from.root == to.root && ById(from.nodes) == ById(to.nodes)
  {
    ByIdKeys(from.nodes);
    ByIdKeys(to.nodes);
    SetWholeHolds(from, to, to.nodes);
    if diff == NO_CHANGE {
      DiffTakesToTarget(from, to, diff);
      EmptyDiffKeeps(from);
    }
    if from.root == to.root && ById(from.nodes) == ById(to.nodes) {
      assert RemovedIds(from, to) == {};
      SameNeedsNothing(from, to, diff);
    }
  }

  lemma SameNeedsNothing(from: Graph, to: Graph, diff: GraphDiff)
    requires UniqueIds(from.nodes) && UniqueIds(to.nodes) && IsDiff(from, to, diff)
    requires from.root == to.root && ById(from.nodes) == ById(to.nodes) && RemovedIds(from, to) == {}
    ensures diff == NO_CHANGE
  {
    SameSetsNothing(from, to, to.nodes);
    SetOfHas(diff.remove);
    Emptied(diff.remove);
    assert forall b :: !ToBind(from, to, b);
    Emptied(diff.bind);
    assert forall p :: !ToUnbind(from, to, p);
    Emptied(diff.unbind);
  }

  /** Between graphs of the same nodes and root, the diff is empty. */
  lemma SameHasNoDiff(from: Graph, to: Graph)
    requires UniqueIds(from.nodes) && UniqueIds(to.nodes) && from.root == to.root && ById(from.nodes) == ById(to.nodes)
    ensures IsDiff(from, to, NO_CHANGE)
  {
    ByIdKeys(from.nodes);
    ByIdKeys(to.nodes);
    assert RemovedIds(from, to) == {};
    SameSetsNothing(from, to, to.nodes);
    assert SetOf(NO_CHANGE.remove) == {};
    assert forall b :: !ToBind(from, to, b);
    assert forall p :: !ToUnbind(from, to, p);
  }

  lemma SameSetsNothing(from: Graph, to: Graph, nodes: seq<Node>)
    requires UniqueIds(to.nodes) && ById(from.nodes) == ById(to.nodes) && RemovedIds(from, to) == {}
    requires nodes <= to.nodes && UniqueIds(nodes)
    ensures SetWhole(from, to, nodes) == []
  {
    SetWholeHolds(from, to, nodes);
    forall n | n in nodes ensures Stays(from, to, n) {
      assert n in to.nodes;
      ByIdFinds(to.nodes, n);
    }
    Emptied(SetWhole(from, to, nodes));
  }

  lemma Emptied<T>(s: seq<T>)
    requires forall x :: x !in s
    ensures s == []
  {
    if s != [] {
      HasOne(s);
    }
  }

  lemma HasOne<T>(s: seq<T>)
    requires s != []
    ensures exists x :: x in s
  {
    assert s[0] in s;
  }

  lemma SetOfHas<T>(s: seq<T>)
    ensures forall x :: x in s <==> x in SetOf(s)
  {
  }

  lemma {:induction false} WithoutNothing(nodes: seq<Node>)
    ensures Without(nodes, {}) == nodes
    decreases |nodes|
  {
    if nodes != [] {
      WithoutNothing(nodes[..|nodes| - 1]);
      var last := nodes[|nodes| - 1];
      assert KeptBind(last.bind, {}) == last.bind;
    }
  }

  lemma EmptyDiffKeeps(g: Graph)
    ensures Applied(g, NO_CHANGE) == Some(g)
  {
    WithoutNothing(g.nodes);
    forall n: Node ensures Rebound(n, NO_CHANGE) == n {
      assert UnboundOf(n, []) == n.bind;
    }
    assert ReboundAll(g.nodes, NO_CHANGE) == g.nodes;
    assert SetOf(NO_CHANGE.remove) == {};
    assert SetAll(g.nodes, NO_CHANGE.set_) == g.nodes;
  }

  // The order of the nodes.

  lemma {:induction false} WithoutOrder(nodes: seq<Node>, removed: set<Uuid>)
    ensures IdList(Without(nodes, removed)) == Only(IdList(nodes), IdsOf(nodes) - removed)
    decreases |nodes|
  {
    if nodes != [] {
      var init, last := nodes[..|nodes| - 1], nodes[|nodes| - 1];
      WithoutOrder(init, removed);
      assert IdList(nodes)[..|nodes| - 1] == IdList(init);
      assert nodes == init + [last];
      OnlyIgnores(IdList(init), IdsOf(init) - removed, IdsOf(nodes) - removed);
    }
  }

  lemma {:induction false} OnlyIgnores(ids: seq<Uuid>, a: set<Uuid>, b: set<Uuid>)
    requires forall id :: id in ids ==> (id in a <==> id in b)
    ensures Only(ids, a) == Only(ids, b)
    decreases |ids|
  {
    if ids != [] {
      OnlyIgnores(ids[..|ids| - 1], a, b);
    }
  }

  lemma SetNodeOrder(nodes: seq<Node>, n: Node)
    ensures IdList(SetNode(nodes, n)) == IdList(nodes) + if n.id in IdsOf(nodes) then [] else [n.id]
  {
  }

  /** Set nodes keep their place, and new ones go last in order. */
  lemma {:induction false} SetAllOrder(nodes: seq<Node>, set_: seq<Node>)
    requires UniqueIds(nodes) && UniqueIds(set_)
    ensures IdList(SetAll(nodes, set_)) == IdList(nodes) + Only(IdList(set_), IdsOf(set_) - IdsOf(nodes))
    decreases |set_|
  {
    if set_ != [] {
      var init, last := set_[..|set_| - 1], set_[|set_| - 1];
      UniqueSplits(set_);
      SetAllOrder(nodes, init);
      SetAllIds(nodes, init);
      SetNodeOrder(SetAll(nodes, init), last);
      OnlySplits(nodes, set_);
    }
  }

  lemma OnlySplits(nodes: seq<Node>, set_: seq<Node>)
    requires UniqueIds(set_) && set_ != []
    ensures var init, last := set_[..|set_| - 1], set_[|set_| - 1];
            Only(IdList(set_), IdsOf(set_) - IdsOf(nodes))
            == Only(IdList(init), IdsOf(init) - IdsOf(nodes)) + if last.id in IdsOf(nodes) then [] else [last.id]
  {
    var init, last := set_[..|set_| - 1], set_[|set_| - 1];
    UniqueSplits(set_);
    IdsSplit(set_);
    assert IdList(set_)[..|set_| - 1] == IdList(init);
    OnlyIgnores(IdList(init), IdsOf(init) - IdsOf(nodes), IdsOf(set_) - IdsOf(nodes));
  }

  /** The graph made lists the nodes it keeps in its own order, and the
      others after them in the target's. */
  lemma DiffKeepsOrder(from: Graph, to: Graph, diff: GraphDiff)
    requires UniqueIds(from.nodes) && UniqueIds(to.nodes) && IsDiff(from, to, diff) && Applied(from, diff).Some?
    ensures var kept := IdsOf(from.nodes) - RemovedIds(from, to);
            IdList(Applied(from, diff).value.nodes)
            == Only(IdList(from.nodes), kept) + Only(IdList(diff.set_), IdsOf(diff.set_) - kept)
  {
    var removed := RemovedIds(from, to);
    var kept := Without(from.nodes, removed);
    WithoutHolds(from.nodes, removed);
    WithoutOrder(from.nodes, removed);
    SetWholeHolds(from, to, to.nodes);
    SetAllOrder(kept, diff.set_);
    SetAllHolds(kept, diff.set_);
    ReboundAllHolds(SetAll(kept, diff.set_), diff);
  }

  // Making a diff.

  /** The bindings of one node that changed, and those it no longer has. */
  method DiffBindings(from: Graph, to: Graph, removed: set<Uuid>, n: Node)
    returns (bind: seq<Binding>, unbind: seq<Port>)
    requires UniqueIds(to.nodes) && n in to.nodes && Stays(from, to, n) && removed == RemovedIds(from, to)
    ensures forall b :: b in bind <==> ToBind(from, to, b) && b.node == n.id
    ensures forall p :: p in unbind <==> ToUnbind(from, to, p) && p.node == n.id
  {
    ByIdFinds(to.nodes, n);
    var was := ById(from.nodes)[n.id];
    bind, unbind := [], [];
    var ports := n.bind.Keys;
    while ports != {}
      invariant ports <= n.bind.Keys
      invariant forall b :: b in bind <==> ToBind(from, to, b) && b.node == n.id && b.port !in ports
      decreases ports
    {
      var port :| port in ports;
      var source := n.bind[port];
      if port !in was.bind || was.bind[port] != source || ReadsAny(source, removed) {
        bind := bind + [Binding(n.id, port, source)];
      }
      ports := ports - {port};
    }
    ports := was.bind.Keys;
    while ports != {}
      invariant ports <= was.bind.Keys
      invariant forall p :: p in unbind <==> ToUnbind(from, to, p) && p.node == n.id && p.port !in ports
      decreases ports
    {
      var port :| port in ports;
      if port !in n.bind && !ReadsAny(was.bind[port], removed) {
        unbind := unbind + [Port(n.id, port)];
      }
      ports := ports - {port};
    }
  }

  method DiffRemoval(from: Graph, to: Graph) returns (remove: seq<Uuid>)
    ensures SetOf(remove) == RemovedIds(from, to)
  {
    var theirs := IdsOf(to.nodes);
    var unrooted := Unrooted(from, to);
    remove := [];
    ghost var listed: set<Uuid> := {};
    for i := 0 to |from.nodes|
      invariant SetOf(remove) == listed
      invariant listed == set n | n in from.nodes[..i] && (n.id !in theirs || Some(n.id) == unrooted) :: n.id
    {
      var id := from.nodes[i].id;
      assert from.nodes[..i + 1] == from.nodes[..i] + [from.nodes[i]];
      if id !in theirs || Some(id) == unrooted {
        SetOfMore(remove, id);
        remove, listed := remove + [id], listed + {id};
      }
    }
    assert from.nodes[..|from.nodes|] == from.nodes;
    if unrooted.Some? && unrooted.value !in IdsOf(from.nodes) {
      SetOfMore(remove, unrooted.value);
      remove := remove + [unrooted.value];
    }
  }

  method Diff(from: Graph, to: Graph) returns (diff: GraphDiff)
    requires UniqueIds(from.nodes) && UniqueIds(to.nodes)
    ensures IsDiff(from, to, diff)
  {
    var remove := DiffRemoval(from, to);
    var set_: seq<Node>, bind: seq<Binding>, unbind: seq<Port> := [], [], [];
    for i := 0 to |to.nodes|
      invariant set_ == SetWhole(from, to, to.nodes[..i])
      invariant forall b :: b in bind <==> ToBind(from, to, b) && b.node in IdsOf(to.nodes[..i])
      invariant forall p :: p in unbind <==> ToUnbind(from, to, p) && p.node in IdsOf(to.nodes[..i])
    {
      var n := to.nodes[i];
      ByIdFinds(to.nodes, n);
      assert to.nodes[..i + 1][..i] == to.nodes[..i];
      IdsSplit(to.nodes[..i + 1]);
      if Stays(from, to, n) {
        var b, u := DiffBindings(from, to, RemovedIds(from, to), n);
        bind, unbind := bind + b, unbind + u;
      } else {
        set_ := set_ + [n];
      }
    }
    assert to.nodes[..|to.nodes|] == to.nodes;
    ByIdKeys(to.nodes);
    diff := GraphDiff(remove, set_, unbind, bind, NewRoot(from, to));
  }
}
