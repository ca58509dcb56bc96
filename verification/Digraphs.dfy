/** Directed graphs: what is reached, cycles, and depth-first order. */
module Digraphs {
  /** The nodes, each with what it leads to in order. */
  type Edges<!A> = map<A, seq<A>>

  /** What a node leads to; one that is not there leads nowhere. */
  function Next<A>(edges: Edges<A>, id: A): seq<A> {
    if id in edges then edges[id] else []
  }

  function NextSet<A>(edges: Edges<A>, id: A): set<A> {
    set child | child in Next(edges, id)
  }

  function SetOf<T>(s: seq<T>): set<T> {
    set x | x in s
  }

  lemma SetOfMore<T>(s: seq<T>, x: T)
    ensures SetOf(s + [x]) == SetOf(s) + {x}
  {
  }

  // Reachability.

  ghost predicate Closed<A(!new)>(edges: Edges<A>, s: set<A>) {
    forall id, child :: id in s && child in Next(edges, id) ==> child in s
  }

  /** Every node the edges name. */
  ghost function Named<A(!new)>(edges: Edges<A>): set<A> {
    edges.Keys + (set id, child | id in edges && child in Next(edges, id) :: child)
  }

  ghost predicate IsLeast<A(!new)>(p: set<A> -> bool, r: set<A>) {
    p(r) && forall s: set<A> {:trigger p(s)} :: p(s) ==> r <= s
  }

  /** The sets that hold `starts` and what they lead to. */
  ghost function ClosedOver<A(!new)>(edges: Edges<A>, starts: set<A>): set<A> -> bool {
    s => starts <= s && Closed(edges, s)
  }

  lemma LeastExists<A(!new)>(edges: Edges<A>, starts: set<A>)
    ensures exists r :: IsLeast(ClosedOver(edges, starts), r)
  {
    var p := ClosedOver(edges, starts);
    var r := set x | x in starts + Named(edges) && forall s: set<A> {:trigger p(s)} :: p(s) ==> x in s;
    forall id, child | id in r && child in Next(edges, id) ensures child in r {
      assert child in Named(edges);
      forall s: set<A> | p(s) ensures child in s {
        assert id in s;
      }
    }
    assert p(starts + Named(edges));
    assert IsLeast(p, r);
  }

  /** What `starts` reach, themselves included: the least closed set. */
  ghost function Reach<A(!new)>(edges: Edges<A>, starts: set<A>): (r: set<A>)
    ensures starts <= r
    ensures Closed(edges, r)
  {
    LeastExists(edges, starts);
    var r :| IsLeast(ClosedOver(edges, starts), r);
    assert ClosedOver(edges, starts)(r);
    r
  }

  lemma ReachIsLeast<A(!new)>(edges: Edges<A>, starts: set<A>, s: set<A>)
    requires starts <= s && Closed(edges, s)
    ensures Reach(edges, starts) <= s
  {
    var p := ClosedOver(edges, starts);
    LeastExists(edges, starts);
    assert IsLeast(p, Reach(edges, starts));
    assert p(s);
  }

  lemma ReachGrows<A(!new)>(edges: Edges<A>, less: set<A>, more: set<A>)
    requires less <= Reach(edges, more)
    ensures Reach(edges, less) <= Reach(edges, more)
  {
    ReachIsLeast(edges, less, Reach(edges, more));
  }

  lemma ReachJoins<A(!new)>(edges: Edges<A>, a: set<A>, b: set<A>)
    ensures Reach(edges, a + b) == Reach(edges, a) + Reach(edges, b)
  {
    ReachGrows(edges, a, a + b);
    ReachGrows(edges, b, a + b);
    ReachIsLeast(edges, a + b, Reach(edges, a) + Reach(edges, b));
  }

  /** What leads on alike from everything reached is reached alike. */
  lemma ReachSame<A(!new)>(edges: Edges<A>, other: Edges<A>, starts: set<A>)
    requires forall id :: id in Reach(edges, starts) ==> Next(other, id) == Next(edges, id)
    ensures Reach(other, starts) == Reach(edges, starts)
  {
    var there := Reach(edges, starts);
    ReachIsLeast(other, starts, there);
    var s := Reach(other, starts);
    assert Closed(edges, s) by {
      forall id, child | id in s && child in Next(edges, id) ensures child in s {
        assert Next(other, id) == Next(edges, id);
      }
    }
    ReachIsLeast(edges, starts, s);
  }

  /** A walk down the children. */
  ghost predicate Walk<A(!new)>(edges: Edges<A>, walk: seq<A>) {
    |walk| > 0 && forall i :: 0 < i < |walk| ==> walk[i] in Next(edges, walk[i - 1])
  }

  lemma {:induction false} WalkReaches<A(!new)>(edges: Edges<A>, starts: set<A>, walk: seq<A>)
    requires Walk(edges, walk) && walk[0] in Reach(edges, starts)
    ensures walk[|walk| - 1] in Reach(edges, starts)
    decreases |walk|
  {
    if |walk| > 1 {
      var shorter := walk[..|walk| - 1];
      WalkReaches(edges, starts, shorter);
      assert walk[|walk| - 1] in Next(edges, shorter[|shorter| - 1]);
    }
  }

  ghost predicate WalkedTo<A(!new)>(edges: Edges<A>, starts: set<A>, id: A) {
    exists walk :: Walk(edges, walk) && walk[0] in starts && walk[|walk| - 1] == id
  }

  lemma WalkOnward<A(!new)>(edges: Edges<A>, starts: set<A>, id: A, child: A)
    requires WalkedTo(edges, starts, id) && child in Next(edges, id)
    ensures WalkedTo(edges, starts, child)
  {
    var walk :| Walk(edges, walk) && walk[0] in starts && walk[|walk| - 1] == id;
    var longer := walk + [child];
    assert Walk(edges, longer) && longer[0] in starts && longer[|longer| - 1] == child;
  }

  /** Being reached is having a walk from a start. */
  lemma ReachIsWalks<A(!new)>(edges: Edges<A>, starts: set<A>, id: A)
    ensures id in Reach(edges, starts) <==> WalkedTo(edges, starts, id)
  {
    if WalkedTo(edges, starts, id) {
      var walk :| Walk(edges, walk) && walk[0] in starts && walk[|walk| - 1] == id;
      WalkReaches(edges, starts, walk);
    }
    var s := set x | x in Reach(edges, starts) && WalkedTo(edges, starts, x);
    forall x | x in starts ensures x in s {
      assert Walk(edges, [x]) && [x][0] in starts && [x][|[x]| - 1] == x;
    }
    forall a, b | a in s && b in Next(edges, a) ensures b in s {
      WalkOnward(edges, starts, a, b);
    }
    ReachIsLeast(edges, starts, s);
  }

  /** The nodes `starts` reach, by a worklist. */
  method FindReach<A(!new,==)>(edges: Edges<A>, starts: seq<A>) returns (found: set<A>)
    ensures found == Reach(edges, set x | x in starts)
  {
    ghost var from := set x | x in starts;
    ghost var all := from + Named(edges);
    found := {};
    var pending := starts;
    while pending != []
      invariant found <= Reach(edges, from)
      invariant forall x :: x in pending ==> x in Reach(edges, from)
      invariant forall x :: x in from ==> x in found || x in pending
      invariant forall id, child :: id in found && child in Next(edges, id) ==> child in found || child in pending
      decreases all - found, |pending|
    {
      var id := pending[|pending| - 1];
      ghost var before := pending;
      pending := pending[..|pending| - 1];
      assert forall x :: x in before ==> x == id || x in pending;
      if id in found {
        continue;
      }
      found := found + {id};
      pending := pending + Next(edges, id);
    }
    ReachIsLeast(edges, from, found);
  }

  // A tree without cycles.

  /** A node reached again through its own children. */
  ghost predicate OwnDescendant<A(!new)>(edges: Edges<A>, id: A) {
    id in Reach(edges, NextSet(edges, id))
  }

  /** Everything under `root` names only nodes, and nothing is under itself. */
  ghost predicate AcyclicUnder<A(!new)>(edges: Edges<A>, root: A) {
    forall id :: id in Reach(edges, {root}) ==>
      && (forall child :: child in Next(edges, id) ==> child in edges)
      && !OwnDescendant(edges, id)
  }

  /** What is under an acyclic root are nodes, and not the root. */
  lemma UnderAreNodes<A(!new)>(edges: Edges<A>, root: A, starts: set<A>)
    requires AcyclicUnder(edges, root) && starts <= NextSet(edges, root)
    ensures Reach(edges, starts) <= edges.Keys - {root}
  {
    var all := Reach(edges, {root});
    assert root in all && !OwnDescendant(edges, root);
    ReachIsLeast(edges, NextSet(edges, root), all);
    ReachGrows(edges, starts, NextSet(edges, root));
    var there := all * edges.Keys;
    forall id, child | id in there && child in Next(edges, id) ensures child in there {
      assert id in all;
    }
    forall id | id in starts ensures id in there {
      assert id in Next(edges, root);
    }
    ReachIsLeast(edges, starts, there);
  }

  predicate InChildren<A(!new)>(edges: Edges<A>, at: (A, nat)) {
    at.1 <= |Next(edges, at.0)|
  }

  predicate Linked<A(!new)>(edges: Edges<A>, above: (A, nat), below: A) {
    0 < above.1 <= |Next(edges, above.0)| && below == Next(edges, above.0)[above.1 - 1]
  }

  /** The path being walked: each node is the child its parent looks at. */
  ghost predicate IsPath<A(!new)>(edges: Edges<A>, stack: seq<(A, nat)>) {
    && (forall i :: 0 <= i < |stack| ==> InChildren(edges, stack[i]))
    && (forall i, j :: 0 <= i < j < |stack| && j == i + 1 ==> Linked(edges, stack[i], stack[j].0))
  }

  ghost function OnPath<A(!new)>(stack: seq<(A, nat)>): set<A> {
    set i | 0 <= i < |stack| :: stack[i].0
  }

  lemma PathReaches<A(!new)>(edges: Edges<A>, stack: seq<(A, nat)>, from: nat, starts: set<A>)
    requires IsPath(edges, stack) && from < |stack| && stack[from].0 in Reach(edges, starts)
    ensures forall i :: from <= i < |stack| ==> stack[i].0 in Reach(edges, starts)
  {
    var i := from;
    while i < |stack| - 1
      invariant from <= i < |stack|
      invariant forall k :: from <= k <= i ==> stack[k].0 in Reach(edges, starts)
    {
      assert stack[i + 1].0 in Next(edges, stack[i].0);
      i := i + 1;
    }
  }

  /** A child that is on the path closes a cycle. */
  lemma PathClosesCycle<A(!new)>(edges: Edges<A>, stack: seq<(A, nat)>, child: A)
    requires IsPath(edges, stack) && |stack| > 0
    requires child in OnPath(stack) && child in Next(edges, stack[|stack| - 1].0)
    ensures OwnDescendant(edges, child)
  {
    var from :| 0 <= from < |stack| && stack[from].0 == child;
    var starts := NextSet(edges, child);
    if from < |stack| - 1 {
      assert stack[from + 1].0 in Next(edges, child);
      PathReaches(edges, stack, from + 1, starts);
    }
    assert child in Reach(edges, starts);
  }

  /** The nodes lead round to the first again. */
  ghost predicate IsCycle<A(!new)>(edges: Edges<A>, cycle: seq<A>) {
    Walk(edges, cycle) && cycle[0] in Next(edges, cycle[|cycle| - 1])
  }

  /** A node of a cycle is reached again through its edges. */
  lemma CycleReturns<A(!new)>(edges: Edges<A>, cycle: seq<A>)
    requires IsCycle(edges, cycle)
    ensures OwnDescendant(edges, cycle[0])
  {
    if |cycle| > 1 {
      var rest := cycle[1..];
      assert rest[0] in Next(edges, cycle[0]);
      forall i | 0 < i < |rest| ensures rest[i] in Next(edges, rest[i - 1]) {
        assert cycle[i + 1] in Next(edges, cycle[i]);
      }
      WalkReaches(edges, NextSet(edges, cycle[0]), rest);
      assert rest[|rest| - 1] == cycle[|cycle| - 1];
    }
  }

  /** The path from a node met again on it is a cycle. */
  lemma PathIsCycle<A(!new)>(edges: Edges<A>, stack: seq<(A, nat)>, from: nat)
    requires IsPath(edges, stack) && from < |stack|
    requires stack[from].0 in Next(edges, stack[|stack| - 1].0)
    ensures IsCycle(edges, seq(|stack| - from, i requires 0 <= i < |stack| - from => stack[from + i].0))
  {
    var cycle := seq(|stack| - from, i requires 0 <= i < |stack| - from => stack[from + i].0);
    forall i | 0 < i < |cycle| ensures cycle[i] in Next(edges, cycle[i - 1]) {
      assert Linked(edges, stack[from + i - 1], stack[from + i].0);
    }
  }

  lemma PathRefutes<A(!new)>(edges: Edges<A>, root: A, stack: seq<(A, nat)>, child: A)
    requires IsPath(edges, stack) && |stack| > 0 && stack[0].0 == root
    requires child in Next(edges, stack[|stack| - 1].0)
    requires child !in edges || child in OnPath(stack)
    ensures !AcyclicUnder(edges, root)
  {
    PathReaches(edges, stack, 0, {root});
    if child in OnPath(stack) {
      PathClosesCycle(edges, stack, child);
    }
  }

  /** Each of the nodes listed after its children. */
  ghost predicate PostOrdered<A(!new)>(edges: Edges<A>, order: seq<A>) {
    && (forall id :: id in order ==> id in edges)
    && (forall i, j :: 0 <= i < j < |order| ==> order[i] != order[j])
    && (forall i, child :: 0 <= i < |order| && child in Next(edges, order[i]) ==> child in order[..i])
  }

  lemma PostOrderedIsClosed<A(!new)>(edges: Edges<A>, order: seq<A>, n: nat)
    requires PostOrdered(edges, order) && n <= |order|
    ensures Closed(edges, set id | id in order[..n])
  {
    var s := set id | id in order[..n];
    forall id, child | id in s && child in Next(edges, id) ensures child in s {
      var i :| 0 <= i < n && order[..n][i] == id;
      assert child in order[..i];
      assert order[..i] <= order[..n];
    }
  }

  /** Listed after its children, nothing is its own descendant. */
  lemma PostOrderedIsAcyclic<A(!new)>(edges: Edges<A>, root: A, order: seq<A>)
    requires PostOrdered(edges, order) && root in order
    ensures AcyclicUnder(edges, root)
  {
    var all := set id | id in order[..|order|];
    PostOrderedIsClosed(edges, order, |order|);
    ReachIsLeast(edges, {root}, all);
    forall id | id in Reach(edges, {root})
      ensures (forall child :: child in Next(edges, id) ==> child in edges) && !OwnDescendant(edges, id)
    {
      assert id in all;
      var i :| 0 <= i < |order| && order[i] == id;
      assert forall child :: child in Next(edges, order[i]) ==> child in order[..i];
      PostOrderedIsClosed(edges, order, i);
      ReachIsLeast(edges, NextSet(edges, id), (set x | x in order[..i]));
    }
  }

  /** How many of its children the node at `i` of the path has had settled:
      all it looked at but the one it is looking into. */
  function Looked<A(!new)>(stack: seq<(A, nat)>, i: nat): int
    requires i < |stack|
  {
    var next: int := stack[i].1;
    if i < |stack| - 1 then next - 1 else next
  }

  /** A search: the path it is on, and what it has settled. */
  ghost predicate Searching<A(!new)>(edges: Edges<A>, order: seq<A>, stack: seq<(A, nat)>) {
    && IsPath(edges, stack) && PostOrdered(edges, order)
    && (forall i :: 0 <= i < |stack| ==> stack[i].0 in edges && stack[i].0 !in order)
    && (forall i, j :: 0 <= i < j < |stack| ==> stack[i].0 != stack[j].0)
    && (forall i, k :: 0 <= i < |stack| && 0 <= k < Looked(stack, i) ==> Next(edges, stack[i].0)[k] in order)
  }

  lemma SearchLeaves<A(!new)>(edges: Edges<A>, order: seq<A>, stack: seq<(A, nat)>)
    requires Searching(edges, order, stack) && stack != []
    requires stack[|stack| - 1].1 == |Next(edges, stack[|stack| - 1].0)|
    ensures Searching(edges, order + [stack[|stack| - 1].0], stack[..|stack| - 1])
  {
    var top := |stack| - 1;
    var id, rest := stack[top].0, stack[..top];
    var longer := order + [id];
    forall i, child | 0 <= i < |longer| && child in Next(edges, longer[i]) ensures child in longer[..i] {
      if i == |order| {
        var k :| 0 <= k < |Next(edges, id)| && Next(edges, id)[k] == child;
        assert k < Looked(stack, top);
        assert longer[..i] == order;
      } else {
        assert child in order[..i];
        assert longer[..i] == order[..i];
      }
    }
    forall i, k | 0 <= i < |rest| && 0 <= k < Looked(rest, i) ensures Next(edges, rest[i].0)[k] in longer {
      if k < Looked(stack, i) {
        assert Next(edges, stack[i].0)[k] in order;
      } else {
        assert i + 1 == top && Next(edges, stack[i].0)[k] == id;
      }
    }
  }

  lemma PathPasses<A(!new)>(edges: Edges<A>, stack: seq<(A, nat)>, id: A, next: nat)
    requires IsPath(edges, stack) && stack != [] && stack[|stack| - 1] == (id, next)
    requires next < |Next(edges, id)|
    ensures IsPath(edges, stack[|stack| - 1 := (id, next + 1)])
    ensures IsPath(edges, stack[|stack| - 1 := (id, next + 1)] + [(Next(edges, id)[next], 0)])
  {
    var passed := stack[|stack| - 1 := (id, next + 1)];
    var on := passed + [(Next(edges, id)[next], 0)];
    forall i | 0 <= i < |on| ensures InChildren(edges, on[i]) && (i < |passed| ==> InChildren(edges, passed[i])) {
      assert i < |stack| - 1 ==> on[i] == passed[i] == stack[i];
    }
    forall i, j | 0 <= i < j < |on| && j == i + 1
      ensures Linked(edges, on[i], on[j].0) && (j < |passed| ==> Linked(edges, passed[i], passed[j].0))
    {
      if j < |passed| {
        assert Linked(edges, stack[i], stack[j].0);
      }
    }
  }

  lemma SearchPasses<A(!new)>(edges: Edges<A>, order: seq<A>, stack: seq<(A, nat)>, id: A, next: nat)
    requires Searching(edges, order, stack) && stack != [] && stack[|stack| - 1] == (id, next)
    requires next < |Next(edges, id)| && Next(edges, id)[next] in order
    ensures Searching(edges, order, stack[|stack| - 1 := (id, next + 1)])
  {
    var on := stack[|stack| - 1 := (id, next + 1)];
    PathPasses(edges, stack, id, next);
    forall i, k | 0 <= i < |on| && 0 <= k < Looked(on, i) ensures Next(edges, on[i].0)[k] in order {
      if i < |stack| - 1 || k < next {
        assert k < Looked(stack, i) && on[i].0 == stack[i].0;
      }
    }
  }

  lemma LookedOnDescent<A(!new)>(stack: seq<(A, nat)>, id: A, next: nat, child: A, i: nat)
    requires stack != [] && stack[|stack| - 1] == (id, next) && i <= |stack|
    ensures var on := stack[|stack| - 1 := (id, next + 1)] + [(child, 0)];
            if i == |stack| then Looked(on, i) == 0 && on[i].0 == child
            else Looked(on, i) == Looked(stack, i) && on[i].0 == stack[i].0
  {
  }

  lemma SearchDescends<A(!new)>(edges: Edges<A>, order: seq<A>, stack: seq<(A, nat)>, id: A, next: nat,
                               child: A)
    requires Searching(edges, order, stack) && stack != [] && stack[|stack| - 1] == (id, next)
    requires next < |Next(edges, id)| && Next(edges, id)[next] == child
    requires child in edges && child !in order && child !in OnPath(stack)
    ensures Searching(edges, order, stack[|stack| - 1 := (id, next + 1)] + [(child, 0)])
  {
    var on := stack[|stack| - 1 := (id, next + 1)] + [(child, 0)];
    PathPasses(edges, stack, id, next);
    forall i | 0 <= i < |on| ensures on[i].0 in edges && on[i].0 !in order {
      LookedOnDescent(stack, id, next, child, i);
    }
    forall i, j | 0 <= i < j < |on| ensures on[i].0 != on[j].0 {
      LookedOnDescent(stack, id, next, child, i);
      LookedOnDescent(stack, id, next, child, j);
      assert stack[i].0 in OnPath(stack);
    }
    forall i, k | 0 <= i < |on| && 0 <= k < Looked(on, i) ensures Next(edges, on[i].0)[k] in order {
      LookedOnDescent(stack, id, next, child, i);
    }
  }

  lemma OnPathSteps<A(!new)>(stack: seq<(A, nat)>, id: A, next: nat, child: A)
    requires stack != [] && stack[|stack| - 1] == (id, next)
    requires forall i, j :: 0 <= i < j < |stack| ==> stack[i].0 != stack[j].0
    ensures id in OnPath(stack)
    ensures OnPath(stack[..|stack| - 1]) == OnPath(stack) - {id}
    ensures OnPath(stack[|stack| - 1 := (id, next + 1)]) == OnPath(stack)
    ensures OnPath(stack[|stack| - 1 := (id, next + 1)] + [(child, 0)]) == OnPath(stack) + {child}
  {
    var top := |stack| - 1;
    var passed := stack[top := (id, next + 1)];
    var on := passed + [(child, 0)];
    assert stack[top].0 == id;
    forall x | x in OnPath(stack)
      ensures x in OnPath(passed) && x in OnPath(on) && (x != id ==> x in OnPath(stack[..top]))
    {
      var i :| 0 <= i < |stack| && stack[i].0 == x;
      assert passed[i].0 == x && on[i].0 == x;
      if x != id {
        assert stack[..top][i].0 == x;
      }
    }
    assert on[|stack|].0 == child;
  }

  /** A chain of three. */
  lemma ChainIsAcyclic<A(!new)>(edges: Edges<A>, first: A, second: A, third: A)
    requires first in edges && second in edges && third in edges
    requires first != second && first != third && second != third
    requires NextSet(edges, first) <= {second} && Next(edges, second) == [third] && Next(edges, third) == []
    ensures AcyclicUnder(edges, first)
  {
    var order := [third, second, first];
    forall i, child | 0 <= i < |order| && child in Next(edges, order[i]) ensures child in order[..i] {
      if i == 1 {
        assert order[..1] == [third];
      } else if i == 2 {
        assert child in NextSet(edges, first);
        assert order[..2] == [third, second];
      }
    }
    PostOrderedIsAcyclic(edges, first, order);
  }
}
