/** The evaluation order of detached nodes: each after every node it reads. */
module Sorting {
  import opened Digraphs

  /** By node, the nodes it reads. */
  type Inputs = seq<seq<nat>>

  ghost predicate InRange(inputs: Inputs) {
    forall i, read :: 0 <= i < |inputs| && read in inputs[i] ==> read < |inputs|
  }

  function InputEdges(inputs: Inputs): Edges<nat> {
    map i: nat | i < |inputs| :: inputs[i]
  }

  datatype Sorted = Order(order: seq<nat>) | Cycle(nodes: seq<nat>)

  /** Every node once, each after the nodes it reads. */
  ghost predicate IsOrder(inputs: Inputs, order: seq<nat>) {
    && PostOrdered(InputEdges(inputs), order)
    && (forall i: nat :: i < |inputs| ==> i in order)
  }

  ghost predicate HasCycle(inputs: Inputs) {
    exists cycle :: IsCycle(InputEdges(inputs), cycle)
  }

  /** What is ordered holds no cycle. */
  lemma OrderedHasNoCycle(inputs: Inputs, order: seq<nat>, cycle: seq<nat>)
    requires IsOrder(inputs, order)
    ensures !IsCycle(InputEdges(inputs), cycle)
  {
    var edges := InputEdges(inputs);
    if IsCycle(edges, cycle) {
      CycleReturns(edges, cycle);
      assert cycle[0] in edges by {
        assert |cycle| > 1 ==> cycle[1] in Next(edges, cycle[0]);
      }
      PostOrderedIsAcyclic(edges, cycle[0], order);
    }
  }

  /** Where on the path a node is. */
  method FindOnPath(path: seq<(nat, nat)>, node: nat) returns (from: nat)
    requires node in OnPath(path)
    ensures from < |path| && path[from].0 == node
  {
    from := 0;
    while path[from].0 != node
      invariant from < |path| && forall i :: 0 <= i < from ==> path[i].0 != node
      decreases |path| - from
    {
      assert exists i :: 0 <= i < |path| && path[i].0 == node;
      from := from + 1;
    }
  }

  /** What `done` and `onPath` say of the search. */
  ghost predicate Marked(n: nat, order: seq<nat>, path: seq<(nat, nat)>, done: array<bool>, onPath: array<bool>)
    reads done, onPath
  {
    && done.Length == onPath.Length == n
    && (forall i: nat :: i < n ==> (done[i] <==> i in order))
    && (forall i: nat :: i < n ==> (onPath[i] <==> i in OnPath(path)))
  }

  /** The path from `node`, met again at its end. */
  method CycleOn(path: seq<(nat, nat)>, node: nat, ghost edges: Edges<nat>) returns (cycle: seq<nat>)
    requires IsPath(edges, path) && node in OnPath(path) && node in Next(edges, path[|path| - 1].0)
    ensures IsCycle(edges, cycle)
  {
    var from := FindOnPath(path, node);
    PathIsCycle(edges, path, from);
    cycle := seq(|path| - from, i requires 0 <= i < |path| - from => path[from + i].0);
  }

  /** On to a node not met yet. */
  method Descend(ghost n: nat, path: seq<(nat, nat)>, at: nat, next: nat, read: nat, ghost done: array<bool>,
                 onPath: array<bool>, ghost edges: Edges<nat>, ghost order: seq<nat>)
    returns (on: seq<(nat, nat)>)
    requires Searching(edges, order, path) && Marked(n, order, path, done, onPath) && done != onPath
    requires path != [] && path[|path| - 1] == (at, next) && next < |Next(edges, at)| && Next(edges, at)[next] == read
    requires read in edges && read < n && !done[read] && !onPath[read]
    modifies onPath
    ensures Searching(edges, order, on) && Marked(n, order, on, done, onPath)
    ensures |on| == |path| + 1 && on[0].0 == path[0].0 && OnPath(on) == OnPath(path) + {read}
  {
    OnPathSteps(path, at, next, read);
    SearchDescends(edges, order, path, at, next, read);
    onPath[read] := true;
    on := path[|path| - 1 := (at, next + 1)] + [(read, 0)];
  }

  /** Lists the node the path ends on, which has looked at all it reads. */
  method Leave(ghost n: nat, order: seq<nat>, path: seq<(nat, nat)>, at: nat, done: array<bool>, onPath: array<bool>,
               ghost edges: Edges<nat>)
    returns (longer: seq<nat>, back: seq<(nat, nat)>)
    requires Searching(edges, order, path) && Marked(n, order, path, done, onPath) && done != onPath && at < n
    requires path != [] && path[|path| - 1] == (at, |Next(edges, at)|)
    modifies done, onPath
    ensures Searching(edges, longer, back) && Marked(n, longer, back, done, onPath)
    ensures longer == order + [at] && back == path[..|path| - 1] && OnPath(back) == OnPath(path) - {at}
    ensures at in OnPath(path)
  {
    OnPathSteps(path, at, |Next(edges, at)|, at);
    SearchLeaves(edges, order, path);
    back := path[..|path| - 1];
    onPath[at] := false;
    done[at] := true;
    longer := order + [at];
  }

  lemma SearchStarts(edges: Edges<nat>, order: seq<nat>, start: nat)
    requires Searching(edges, order, []) && start in edges && start !in order
    ensures Searching(edges, order, [(start, 0)])
  {
  }

  lemma TopTells(edges: Edges<nat>, order: seq<nat>, path: seq<(nat, nat)>)
    requires Searching(edges, order, path) && path != []
    ensures var (at, next) := path[|path| - 1]; at in edges && next <= |Next(edges, at)| && IsPath(edges, path)
    ensures forall i, j :: 0 <= i < j < |path| ==> path[i].0 != path[j].0
  {
  }

  /** Lists what `start` reads, and it, after what is listed; or finds a
      cycle. */
  method SortFrom(inputs: Inputs, start: nat, before: seq<nat>, done: array<bool>, onPath: array<bool>)
    returns (sorted: Sorted)
    requires InRange(inputs) && start < |inputs| && done != onPath
    requires Searching(InputEdges(inputs), before, []) && Marked(|inputs|, before, [], done, onPath) && !done[start]
    modifies done, onPath
    ensures sorted.Order? ==>
              && Searching(InputEdges(inputs), sorted.order, [])
              && Marked(|inputs|, sorted.order, [], done, onPath)
              && start in sorted.order && before <= sorted.order
    ensures sorted.Cycle? ==> IsCycle(InputEdges(inputs), sorted.nodes)
  {
    hide IsCycle, Searching, IsPath;
    ghost var edges := InputEdges(inputs);
    SearchStarts(edges, before, start);
    var order := before;
    var path: seq<(nat, nat)> := [(start, 0)];
    onPath[start] := true;
    while path != []
      invariant Searching(edges, order, path) && Marked(|inputs|, order, path, done, onPath)
      invariant if path == [] then start in order else path[0].0 == start
      invariant before <= order
      decreases edges.Keys - (set i | i in order) - OnPath(path), |path|,
                if path == [] then 0 else |Next(edges, path[|path| - 1].0)| - path[|path| - 1].1
    {
      TopTells(edges, order, path);
      var top := |path| - 1;
      var (at, next) := path[top];
      if next < |inputs[at]| {
        var read := inputs[at][next];
        assert read in inputs[at];
        if done[read] {
          OnPathSteps(path, at, next, read);
          SearchPasses(edges, order, path, at, next);
          path := path[top := (at, next + 1)];
        } else if onPath[read] {
          var cycle := CycleOn(path, read, edges);
          return Cycle(cycle);
        } else {
          path := Descend(|inputs|, path, at, next, read, done, onPath, edges, order);
        }
      } else {
        order, path := Leave(|inputs|, order, path, at, done, onPath, edges);
      }
    }
    sorted := Order(order);
  }

  /**
   Succeeds exactly when no node reads itself through others, and then lists
   every node once, each after the nodes it reads; otherwise the nodes it
   names read each other in a cycle.
   */
  method Sort(inputs: Inputs) returns (sorted: Sorted)
    requires InRange(inputs)
    ensures sorted.Order? <==> !HasCycle(inputs)
    ensures sorted.Order? ==> IsOrder(inputs, sorted.order) && |sorted.order| == |inputs|
    ensures sorted.Cycle? ==> IsCycle(InputEdges(inputs), sorted.nodes)
  {
    var done := new bool[|inputs|](_ => false);
    var onPath := new bool[|inputs|](_ => false);
    sorted := Order([]);
    for start := 0 to |inputs|
      invariant sorted.Order? && Searching(InputEdges(inputs), sorted.order, [])
      invariant Marked(|inputs|, sorted.order, [], done, onPath)
      invariant forall i: nat :: i < start ==> i in sorted.order
    {
      if !done[start] {
        ghost var before := sorted.order;
        sorted := SortFrom(inputs, start, sorted.order, done, onPath);
        assert sorted.Order? ==> forall i :: i in before ==> i in sorted.order;
        if sorted.Cycle? {
          return;
        }
      }
    }
    forall cycle: seq<nat> ensures !IsCycle(InputEdges(inputs), cycle) {
      OrderedHasNoCycle(inputs, sorted.order, cycle);
    }
    OrderCounts(inputs, sorted.order);
  }

  lemma OrderCounts(inputs: Inputs, order: seq<nat>)
    requires IsOrder(inputs, order)
    ensures |order| == |inputs|
  {
    DistinctCounts(order);
    assert SetOf(order) == Below(|inputs|) by {
      forall i | i in SetOf(order) ensures i in Below(|inputs|) {
        assert i in InputEdges(inputs);
      }
    }
  }

  lemma {:induction false} DistinctCounts<A(!new)>(s: seq<A>)
    requires forall i, j :: 0 <= i < j < |s| ==> s[i] != s[j]
    ensures |SetOf(s)| == |s|
    decreases |s|
  {
    if s != [] {
      var init, last := s[..|s| - 1], s[|s| - 1];
      DistinctCounts(init);
      assert s == init + [last];
      assert SetOf(s) == SetOf(init) + {last};
    }
  }

  function Below(n: nat): (s: set<nat>)
    ensures |s| == n
    ensures forall i: int :: i in s <==> 0 <= i < n
  {
    if n == 0 then {}
    else
      var less: set<nat> := Below(n - 1);
      less + {n - 1}
  }
}
