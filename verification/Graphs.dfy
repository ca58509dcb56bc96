/**
 The shared graph model: nodes bound to functions, each holding its own
 bindings and its children, and the edits that take one graph to another.
 */
module Graphs {
  import opened Integers
  import opened Digraphs

  datatype Uuid = Uuid(bits: nat)

  /** A node's return value, as one of its ports. */
  const RETURN_PORT := Uuid(0x5f726574000040008000000000000000)

  datatype Value = Unit | Data(content: int) | Present(held: Value) | Absent

  datatype Port = Port(node: Uuid, port: Uuid)

  datatype Source =
    | Literal(value: Value)
    | Key(path: string)
    | Reads(port: Port)
    | Select(source: Source, selection: string)

  /** The port a source ultimately reads, through any selection. */
  function SourcePort(source: Source): Option<Port> {
    match source
    case Reads(port) => Some(port)
    case Select(inner, _) => SourcePort(inner)
    case _ => None
  }

  predicate ReadsAny(source: Source, nodes: set<Uuid>) {
    SourcePort(source).Some? && SourcePort(source).value.node in nodes
  }

  datatype Node = Node(id: Uuid, function_: Uuid, bind: map<Uuid, Source>, children: Option<seq<Uuid>>)

  datatype Graph = Graph(root: Option<Uuid>, nodes: seq<Node>)

  /** A graph's nodes by id. */
  type Index = map<Uuid, Node>

  predicate UniqueIds(nodes: seq<Node>) {
    forall i, j :: 0 <= i < j < |nodes| ==> nodes[i].id != nodes[j].id
  }

  /** The nodes by id, a later one standing for an earlier one of its id. */
  function ById(nodes: seq<Node>): (index: Index)
    ensures forall id :: id in index ==> index[id] in nodes && index[id].id == id
    ensures forall n :: n in nodes ==> n.id in index
  {
    if nodes == [] then map[]
    else ById(nodes[..|nodes| - 1])[nodes[|nodes| - 1].id := nodes[|nodes| - 1]]
  }

  lemma ByIdFinds(nodes: seq<Node>, n: Node)
    requires UniqueIds(nodes) && n in nodes
    ensures n.id in ById(nodes) && ById(nodes)[n.id] == n
  {
  }

  function IdsOf(nodes: seq<Node>): (ids: set<Uuid>) {
    set n | n in nodes :: n.id
  }

  function ChildList(n: Node): seq<Uuid> {
    if n.children.Some? then n.children.value else []
  }

  /** The children relation of an index. */
  function Children(index: Index): Edges<Uuid> {
    map id | id in index :: ChildList(index[id])
  }

  datatype TreeError =
    | MissingChild(node: Uuid, child: Uuid)
    | Cycle(node: Uuid)
    | ListedTwice
    | RootIsChild(node: Uuid)
    | TwoParents(child: Uuid)
    | Loose(node: Uuid)

  datatype Checked = Fine | Refused(error: TreeError)

  /**
   Depth-first under `root`: accepts exactly when every node under it names
   only nodes as children and none is its own descendant.
   */
  method CheckAcyclic(edges: Edges<Uuid>, root: Uuid) returns (checked: Checked)
    requires root in edges
    ensures checked.Fine? <==> AcyclicUnder(edges, root)
  {
    ghost var order: seq<Uuid> := [];
    var done: set<Uuid> := {};
    var open := {root};
    var stack: seq<(Uuid, nat)> := [(root, 0)];
    while stack != []
      invariant Searching(edges, order, stack) && open == OnPath(stack)
      invariant done == set id | id in order
      invariant if stack == [] then root in order else stack[0].0 == root
      decreases edges.Keys - done - open, |stack|,
                if stack == [] then 0 else |Next(edges, stack[|stack| - 1].0)| - stack[|stack| - 1].1
    {
      var top := |stack| - 1;
      var (id, next) := stack[top];
      var children := Next(edges, id);
      if next == |children| {
        OnPathSteps(stack, id, next, id);
        SearchLeaves(edges, order, stack);
        order := order + [id];
        open := open - {id};
        done := done + {id};
        stack := stack[..top];
        continue;
      }
      var child := children[next];
      OnPathSteps(stack, id, next, child);
      if child !in edges {
        PathRefutes(edges, root, stack, child);
        return Refused(MissingChild(id, child));
      }
      if child in open {
        PathRefutes(edges, root, stack, child);
        return Refused(Cycle(child));
      }
      if child in done {
        SearchPasses(edges, order, stack, id, next);
        stack := stack[top := (id, next + 1)];
      } else {
        SearchDescends(edges, order, stack, id, next, child);
        open := open + {child};
        stack := stack[top := (id, next + 1)] + [(child, 0)];
      }
    }
    PostOrderedIsAcyclic(edges, root, order);
    checked := Fine;
  }

  // One tree, and calls beside it.

  /** Every child slot of the nodes, in order. */
  function Slots(nodes: seq<Node>): seq<Uuid> {
    if nodes == [] then []
    else Slots(nodes[..|nodes| - 1]) + ChildList(nodes[|nodes| - 1])
  }

  predicate Distinct<T(==)>(s: seq<T>) {
    forall i, j :: 0 <= i < j < |s| ==> s[i] != s[j]
  }

  /** The slots are one place each, of nodes, and never the root's. */
  predicate SoundSlots(slots: seq<Uuid>, root: Uuid, index: Index) {
    Distinct(slots) && root !in slots && forall child :: child in slots ==> child in index
  }

  /** A call to a module function, holding no children. */
  predicate Detachable(n: Node, native: set<Uuid>) {
    n.function_ !in native && ChildList(n) == []
  }

  /** The nodes no node holds, the root aside. */
  function Parentless(nodes: seq<Node>, root: Uuid): set<Uuid> {
    set n | n in nodes && n.id != root && n.id !in Slots(nodes) :: n.id
  }

  /**
   The nodes are one tree under `root`, beside which stand detachable calls:
   each node listed once, each child a node, at one place, never the root;
   and the tree is every node but the calls.
   */
  ghost predicate IsTree(nodes: seq<Node>, root: Uuid, native: set<Uuid>) {
    && UniqueIds(nodes)
    && SoundSlots(Slots(nodes), root, ById(nodes))
    && (forall n :: n in nodes && n.id != root && n.id !in Slots(nodes) ==> Detachable(n, native))
    && Reach(Children(ById(nodes)), {root}) == IdsOf(nodes) - Parentless(nodes, root)
  }

  lemma {:induction false} ByIdKeys(nodes: seq<Node>)
    ensures ById(nodes).Keys == IdsOf(nodes)
    decreases |nodes|
  {
    if nodes != [] {
      ByIdKeys(nodes[..|nodes| - 1]);
      assert nodes == nodes[..|nodes| - 1] + [nodes[|nodes| - 1]];
    }
  }

  lemma UniqueSplits(nodes: seq<Node>)
    requires nodes != []
    ensures var rest, last := nodes[..|nodes| - 1], nodes[|nodes| - 1];
            UniqueIds(nodes) <==> UniqueIds(rest) && last.id !in IdsOf(rest)
  {
    var rest, last := nodes[..|nodes| - 1], nodes[|nodes| - 1];
    if UniqueIds(nodes) {
      forall i, j | 0 <= i < j < |rest| ensures rest[i].id != rest[j].id {
        assert nodes[i].id != nodes[j].id;
      }
    }
    if UniqueIds(rest) && last.id !in IdsOf(rest) {
      forall i, j | 0 <= i < j < |nodes| ensures nodes[i].id != nodes[j].id {
        assert nodes[i] == rest[i] && rest[i].id in IdsOf(rest);
        if j < |rest| {
          assert nodes[j] == rest[j];
        }
      }
    }
  }

  /** As many ids as nodes is what tells that none is listed twice. */
  lemma {:induction false} IdsCount(nodes: seq<Node>)
    ensures |IdsOf(nodes)| <= |nodes|
    ensures |IdsOf(nodes)| == |nodes| <==> UniqueIds(nodes)
    decreases |nodes|
  {
    if nodes != [] {
      var rest, last := nodes[..|nodes| - 1], nodes[|nodes| - 1];
      IdsCount(rest);
      UniqueSplits(nodes);
      assert nodes == rest + [last];
      assert IdsOf(nodes) == IdsOf(rest) + {last.id};
    }
  }

  lemma {:induction false} SlotsAreChildren(nodes: seq<Node>, child: Uuid)
    ensures child in Slots(nodes) <==> exists n :: n in nodes && child in ChildList(n)
    decreases |nodes|
  {
    if nodes != [] {
      var rest, last := nodes[..|nodes| - 1], nodes[|nodes| - 1];
      SlotsAreChildren(rest, child);
      assert nodes == rest + [last];
    }
  }

  /** The tree's nodes and the parentless ones are apart, so counting them
      tells whether they are all. */
  lemma CountingTells(nodes: seq<Node>, root: Uuid)
    requires UniqueIds(nodes) && root in IdsOf(nodes) && SoundSlots(Slots(nodes), root, ById(nodes))
    ensures |Reach(Children(ById(nodes)), {root})| + |Parentless(nodes, root)| == |nodes|
            <==> Reach(Children(ById(nodes)), {root}) == IdsOf(nodes) - Parentless(nodes, root)
  {
    var index, ids, loose := ById(nodes), IdsOf(nodes), Parentless(nodes, root);
    var edges := Children(index);
    var tree := Reach(edges, {root});
    ByIdKeys(nodes);
    IdsCount(nodes);
    var apart := ids - loose;
    assert apart == set id | id in ids && (id == root || id in Slots(nodes));
    forall id, child | id in apart && child in Next(edges, id) ensures child in apart {
      SlotsAreChildren(nodes, child);
      assert index[id] in nodes && child in ChildList(index[id]);
    }
    ReachIsLeast(edges, {root}, apart);
    assert |apart| == |ids| - |loose|;
    if |tree| == |apart| {
      SubsetOfSameSize(tree, apart);
    }
  }

  lemma SubsetOfSameSize<T>(a: set<T>, b: set<T>)
    requires a <= b && |a| == |b|
    ensures a == b
  {
    assert |b - a| == 0;
  }

  lemma {:induction false} SlotsPrefix(nodes: seq<Node>, n: nat)
    requires n <= |nodes|
    ensures Slots(nodes[..n]) <= Slots(nodes)
    decreases |nodes|
  {
    if n < |nodes| {
      var rest := nodes[..|nodes| - 1];
      SlotsPrefix(rest, n);
      assert rest[..n] == nodes[..n];
    } else {
      assert nodes[..n] == nodes;
    }
  }

  datatype TreeChecked = Tree(detached: set<Uuid>) | NoTree(error: TreeError)

  datatype Parents = Parents(parent: map<Uuid, Uuid>) | NoParents(error: TreeError)

  /** One more node's children added to those before it. */
  method HoldChildren(ghost all: seq<Uuid>, ghost slots: seq<Uuid>, n: Node, root: Uuid, index: Index,
                      parent: map<Uuid, Uuid>)
    returns (held: Parents)
    requires slots + ChildList(n) <= all && SoundSlots(slots, root, index)
    requires parent.Keys == set child | child in slots
    ensures held.Parents? ==> SoundSlots(slots + ChildList(n), root, index)
    ensures held.Parents? ==> held.parent.Keys == set child | child in slots + ChildList(n)
    ensures held.NoParents? ==> !SoundSlots(all, root, index)
  {
    var parent, children := parent, ChildList(n);
    for k := 0 to |children|
      invariant SoundSlots(slots + children[..k], root, index)
      invariant parent.Keys == set child | child in slots + children[..k]
    {
      var child := children[k];
      ghost var before := slots + children[..k];
      assert slots + children[..k + 1] == before + [child];
      assert all[|before|] == child && all[..|before|] == before;
      if child !in index {
        return NoParents(MissingChild(n.id, child));
      }
      if child == root {
        return NoParents(RootIsChild(n.id));
      }
      if child in parent {
        TwiceInSlots(all, before, child);
        return NoParents(TwoParents(child));
      }
      parent := parent[child := n.id];
    }
    assert children[..|children|] == children;
    held := Parents(parent);
  }

  /** Each child's parent, when every child is a node at one place, and not
      the root. */
  method FindParents(nodes: seq<Node>, root: Uuid, index: Index) returns (held: Parents)
    ensures held.Parents? <==> SoundSlots(Slots(nodes), root, index)
    ensures held.Parents? ==> held.parent.Keys == set child | child in Slots(nodes)
  {
    held := Parents(map[]);
    for i := 0 to |nodes|
      invariant SoundSlots(Slots(nodes[..i]), root, index)
      invariant held.Parents? && held.parent.Keys == set child | child in Slots(nodes[..i])
    {
      assert nodes[..i + 1][..i] == nodes[..i];
      SlotsPrefix(nodes, i + 1);
      held := HoldChildren(Slots(nodes), Slots(nodes[..i]), nodes[i], root, index, held.parent);
      if held.NoParents? {
        return;
      }
    }
    assert nodes[..|nodes|] == nodes;
  }

  /** The nodes without a parent, when all of them are detachable. */
  method FindLoose(nodes: seq<Node>, root: Uuid, native: set<Uuid>, parent: map<Uuid, Uuid>)
    returns (loose: TreeChecked)
    requires parent.Keys == set child | child in Slots(nodes)
    ensures loose.Tree? <==> forall n :: n in nodes && n.id != root && n.id !in Slots(nodes) ==> Detachable(n, native)
    ensures loose.Tree? ==> loose.detached == Parentless(nodes, root)
  {
    var detached: set<Uuid> := {};
    for i := 0 to |nodes|
      invariant detached == set n | n in nodes[..i] && n.id != root && n.id !in Slots(nodes) :: n.id
      invariant forall n :: n in nodes[..i] && n.id != root && n.id !in Slots(nodes) ==> Detachable(n, native)
    {
      var n := nodes[i];
      assert nodes[..i + 1] == nodes[..i] + [n];
      if n.id != root && n.id !in parent {
        if n.function_ in native || ChildList(n) != [] {
          assert n in nodes && !Detachable(n, native);
          return NoTree(Loose(n.id));
        }
        detached := detached + {n.id};
      }
    }
    assert nodes[..|nodes|] == nodes;
    loose := Tree(detached);
  }

  /**
   Accepts exactly a tree with detachable calls beside it, and gives those
   calls: the nodes no node holds.
   */
  method CheckTree(nodes: seq<Node>, root: Uuid, native: set<Uuid>) returns (checked: TreeChecked)
    requires root in IdsOf(nodes)
    ensures checked.Tree? <==> IsTree(nodes, root, native)
    ensures checked.Tree? ==> checked.detached == Parentless(nodes, root)
  {
    var index := ById(nodes);
    IdsCount(nodes);
    ByIdKeys(nodes);
    assert |index| == |index.Keys|;
    if |index| != |nodes| {
      return NoTree(ListedTwice);
    }
    var held := FindParents(nodes, root, index);
    if held.NoParents? {
      return NoTree(held.error);
    }
    checked := FindLoose(nodes, root, native, held.parent);
    if checked.NoTree? {
      return;
    }
    var tree := FindReach(Children(index), [root]);
    assert (set x | x in [root]) == {root};
    CountingTells(nodes, root);
    if |tree| + |checked.detached| != |nodes| {
      return NoTree(Cycle(root));
    }
  }

  /** What is both in a prefix and just after it is listed twice. */
  lemma TwiceInSlots(all: seq<Uuid>, prefix: seq<Uuid>, again: Uuid)
    requires |prefix| < |all| && prefix == all[..|prefix|] && again in prefix && all[|prefix|] == again
    ensures !Distinct(all)
  {
    var i :| 0 <= i < |prefix| && prefix[i] == again;
    assert all[i] == all[|prefix|];
  }
}
