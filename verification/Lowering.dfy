/**
 Lowering detached nodes: one writer for each cell of the tree's own, who
 reads whom, and which nodes a tick brings up to date.
 */
module Lowering {
  import opened Integers
  import opened Digraphs
  import opened Graphs
  import opened Expressions
  import opened Sorting
  import opened Detached

  // One writer.

  /** `node` writes `cell`: the detached node at `writer`, or one of the
      tree's own. */
  datatype Claim = Claim(cell: Cell, writer: Option<nat>, node: Uuid)

  /** Two nodes write one cell of the tree's own, one of them detached. */
  predicate Clash(a: Claim, b: Claim) {
    a.cell == b.cell && a.cell.Local? && a.node != b.node && (a.writer.Some? || b.writer.Some?)
  }

  predicate OneWriter(claims: seq<Claim>) {
    forall i, j :: 0 <= i < j < |claims| ==> !Clash(claims[i], claims[j])
  }

  /** A node is detached or not, wherever it claims. */
  predicate Consistent(claims: seq<Claim>) {
    forall i, j :: 0 <= i < |claims| && 0 <= j < |claims| && claims[i].node == claims[j].node ==>
      claims[i].writer == claims[j].writer
  }

  type Writers = map<Cell, Claim>

  datatype Claimed = Claimed(writers: Writers) | Contested(cell: Cell)

  /** Each cell's last claim, and the claim of the one node that writes it
      where a detached node does. */
  ghost predicate Holds(writers: Writers, claims: seq<Claim>) {
    && (forall cell :: cell in writers ==> writers[cell] in claims && writers[cell].cell == cell && cell.Local?)
    && (forall k :: 0 <= k < |claims| && claims[k].cell.Local? ==>
          claims[k].cell in writers && (claims[k].writer.Some? ==> writers[claims[k].cell] == claims[k]))
  }

  lemma NoneClash(claims: seq<Claim>, i: nat, k: nat)
    requires OneWriter(claims) && i < |claims| && k < |claims|
    ensures !Clash(claims[i], claims[k])
  {
    if i < k {
      assert !Clash(claims[i], claims[k]);
    } else if k < i {
      assert !Clash(claims[k], claims[i]);
    }
  }

  /** Looking at a cell's last claim finds a clash with any before it. */
  lemma LastClaimTells(writers: Writers, claims: seq<Claim>, claim: Claim)
    requires Holds(writers, claims) && OneWriter(claims) && Consistent(claims + [claim]) && claim.cell.Local?
    ensures OneWriter(claims + [claim])
            <==> claim.cell !in writers || !Clash(writers[claim.cell], claim)
  {
    var all := claims + [claim];
    if claim.cell in writers && Clash(writers[claim.cell], claim) {
      var k :| 0 <= k < |claims| && claims[k] == writers[claim.cell];
      assert Clash(all[k], all[|claims|]);
    } else {
      forall i, j | 0 <= i < j < |all| ensures !Clash(all[i], all[j]) {
        if j == |claims| {
          if claim.cell in writers {
            var k :| 0 <= k < |claims| && claims[k] == writers[claim.cell];
            NoneClash(claims, i, k);
            assert all[k].node == all[j].node ==> all[k].writer == all[j].writer;
          }
        } else {
          assert !Clash(claims[i], claims[j]);
        }
      }
    }
  }

  /** Claims in turn: refused exactly when two nodes write one cell of the
      tree's own and one of them is detached. */
  method ClaimAll(claims: seq<Claim>) returns (claimed: Claimed)
    requires Consistent(claims)
    ensures claimed.Claimed? <==> OneWriter(claims)
    ensures claimed.Claimed? ==> Holds(claimed.writers, claims)
  {
    var writers: Writers := map[];
    for i := 0 to |claims|
      invariant OneWriter(claims[..i]) && Holds(writers, claims[..i])
    {
      var claim := claims[i];
      assert claims[..i + 1] == claims[..i] + [claim];
      assert OneWriter(claims) ==> OneWriter(claims[..i + 1]);
      if claim.cell.Local? {
        LastClaimTells(writers, claims[..i], claim);
        if claim.cell in writers && Clash(writers[claim.cell], claim) {
          return Contested(claim.cell);
        }
        ClaimedAfter(writers, claims[..i], claim);
        writers := writers[claim.cell := claim];
      }
    }
    assert claims[..|claims|] == claims;
    claimed := Claimed(writers);
  }

  lemma ClaimedAfter(writers: Writers, claims: seq<Claim>, claim: Claim)
    requires Holds(writers, claims) && claim.cell.Local? && Consistent(claims + [claim])
    requires OneWriter(claims + [claim])
    ensures Holds(writers[claim.cell := claim], claims + [claim])
  {
    var all := claims + [claim];
    forall k | 0 <= k < |claims| && claims[k].cell == claim.cell && claims[k].writer.Some?
      ensures claims[k] == claim
    {
      assert !Clash(all[k], all[|claims|]);
      assert all[k].node == all[|claims|].node;
    }
    forall cell | cell in writers ensures writers[cell] in all {
    }
  }

  // Who reads whom.

  predicate Ascending(s: seq<nat>) {
    forall i, j :: 0 <= i < j < |s| ==> s[i] < s[j]
  }

  method InsertOnce(s: seq<nat>, x: nat) returns (r: seq<nat>)
    requires Ascending(s)
    ensures Ascending(r) && SetOf(r) == SetOf(s) + {x}
  {
    var i := 0;
    while i < |s| && s[i] < x
      invariant i <= |s| && forall k :: 0 <= k < i ==> s[k] < x
    {
      i := i + 1;
    }
    if i < |s| && s[i] == x {
      return s;
    }
    r := s[..i] + [x] + s[i..];
    InsertedHolds(s, i, x);
  }

  lemma InsertedHolds(s: seq<nat>, i: nat, x: nat)
    requires Ascending(s) && i <= |s| && (forall k :: 0 <= k < i ==> s[k] < x) && (i < |s| ==> x < s[i])
    ensures Ascending(s[..i] + [x] + s[i..]) && SetOf(s[..i] + [x] + s[i..]) == SetOf(s) + {x}
  {
    var r := s[..i] + [x] + s[i..];
    forall a, b | 0 <= a < b < |r| ensures r[a] < r[b] {
      assert r[a] == if a < i then s[a] else if a == i then x else s[a - 1];
      assert r[b] == if b < i then s[b] else if b == i then x else s[b - 1];
    }
    forall y | y in s ensures y in r {
      var k :| 0 <= k < |s| && s[k] == y;
      assert r[if k < i then k else k + 1] == y;
    }
    assert r[i] == x;
  }

  function WriterOf(writers: Writers, cell: Cell): Option<nat> {
    if cell in writers then writers[cell].writer else None
  }

  /** The detached nodes that write `cells`, each once; none when `own` is one
      of them, whose output goes round through a store key instead. */
  method ReadsOf(cells: seq<Cell>, writers: Writers, own: Option<nat>) returns (read: Option<seq<nat>>)
    ensures read.None? <==> own.Some? && exists k :: 0 <= k < |cells| && WriterOf(writers, cells[k]) == own
    ensures read.Some? ==>
              && Ascending(read.value)
              && forall j :: j in read.value <==> exists k :: 0 <= k < |cells| && WriterOf(writers, cells[k]) == Some(j)
  {
    var found: seq<nat> := [];
    for i := 0 to |cells|
      invariant own.Some? ==> forall k :: 0 <= k < i ==> WriterOf(writers, cells[k]) != own
      invariant Ascending(found)
      invariant forall j :: j in found <==> exists k :: 0 <= k < i && WriterOf(writers, cells[k]) == Some(j)
    {
      var writer := WriterOf(writers, cells[i]);
      if writer.Some? {
        if writer == own {
          return None;
        }
        var before := found;
        found := InsertOnce(found, writer.value);
        assert forall j :: j in found <==> j in SetOf(found);
        assert forall j :: j in before <==> j in SetOf(before);
      }
    }
    read := Some(found);
  }

  // Lowering.

  /** A detached node, and the cells its arguments and parameters read. */
  datatype Listed = Listed(id: Uuid, node: DetachedNode, cells: seq<Cell>)

  datatype Lowered =
    | Lowered(wiring: Wiring)
    | TwoWriters(cell: Cell)
    | OwnOutput(node: nat)
    | ReadInCycle(nodes: seq<nat>)

  /** What a tree lists: every node once, its output a cell of its own, and
      what its arguments read among its cells; `attached` claims are not
      detached nodes'. */
  predicate Listing(listed: seq<Listed>, attached: seq<Claim>) {
    && (forall i, j :: 0 <= i < j < |listed| ==> listed[i].id != listed[j].id)
    && (forall i :: 0 <= i < |listed| ==>
          listed[i].node.out.Local? && ArgumentCells(listed[i].node.arguments) <= SetOf(listed[i].cells))
    && (forall k :: 0 <= k < |attached| ==>
          attached[k].writer.None? && forall i :: 0 <= i < |listed| ==> attached[k].node != listed[i].id)
  }

  function Claims(listed: seq<Listed>, attached: seq<Claim>): seq<Claim> {
    seq(|listed|, i requires 0 <= i < |listed| => Claim(listed[i].node.out, Some(i), listed[i].id)) + attached
  }

  predicate Reads(listed: seq<Listed>, i: nat, j: nat) {
    i < |listed| && j < |listed| && listed[j].node.out in listed[i].cells
  }

  predicate ReadRound(listed: seq<Listed>, cycle: seq<nat>) {
    && |cycle| > 0 && (forall i :: 0 < i < |cycle| ==> Reads(listed, cycle[i - 1], cycle[i]))
    && Reads(listed, cycle[|cycle| - 1], cycle[0])
  }

  ghost predicate Lowerable(listed: seq<Listed>, attached: seq<Claim>) {
    && OneWriter(Claims(listed, attached))
    && (forall i :: 0 <= i < |listed| ==> !Reads(listed, i, i))
    && (forall cycle :: !ReadRound(listed, cycle))
  }

  /** Each node's inputs, in order, are the nodes it reads. */
  ghost predicate InputsOf(listed: seq<Listed>, inputs: Inputs) {
    && |inputs| <= |listed|
    && (forall i :: 0 <= i < |inputs| ==> Ascending(inputs[i]))
    && (forall i, j :: 0 <= i < |inputs| ==> (j in inputs[i] <==> Reads(listed, i, j)))
  }

  lemma RoundIsCycle(listed: seq<Listed>, inputs: Inputs, cycle: seq<nat>)
    requires InputsOf(listed, inputs) && |inputs| == |listed|
    ensures ReadRound(listed, cycle) <==> IsCycle(InputEdges(inputs), cycle)
  {
    var edges := InputEdges(inputs);
    forall i: nat, j: nat ensures j in Next(edges, i) <==> Reads(listed, i, j) {
    }
  }

  lemma WriterIsReader(listed: seq<Listed>, attached: seq<Claim>, writers: Writers, cell: Cell, j: nat)
    requires Listing(listed, attached) && Holds(writers, Claims(listed, attached))
    ensures WriterOf(writers, cell) == Some(j) <==> j < |listed| && listed[j].node.out == cell
  {
    var claims := Claims(listed, attached);
    if cell in writers && writers[cell].writer == Some(j) {
      assert forall k :: |listed| <= k < |claims| ==> claims[k] == attached[k - |listed|];
      var k :| 0 <= k < |claims| && claims[k] == writers[cell];
    }
    if j < |listed| && listed[j].node.out == cell {
      assert claims[j] == Claim(cell, Some(j), listed[j].id);
    }
  }

  lemma ListingIsConsistent(listed: seq<Listed>, attached: seq<Claim>)
    requires Listing(listed, attached)
    ensures Consistent(Claims(listed, attached))
  {
    var claims := Claims(listed, attached);
    forall i, j | 0 <= i < |claims| && 0 <= j < |claims| && claims[i].node == claims[j].node
      ensures claims[i].writer == claims[j].writer
    {
      assert i >= |listed| ==> claims[i] == attached[i - |listed|];
      assert j >= |listed| ==> claims[j] == attached[j - |listed|];
    }
  }

  /** Each node's reads, unless one reads its own output. */
  method FindInputs(listed: seq<Listed>, attached: seq<Claim>, writers: Writers)
    returns (inputs: Inputs, own: Option<nat>)
    requires Listing(listed, attached) && Holds(writers, Claims(listed, attached))
    ensures own.None? ==> |inputs| == |listed| && InputsOf(listed, inputs)
    ensures own.None? ==> forall i :: 0 <= i < |listed| ==> !Reads(listed, i, i)
    ensures own.Some? ==> Reads(listed, own.value, own.value)
  {
    inputs := [];
    for i := 0 to |listed|
      invariant |inputs| == i && InputsOf(listed, inputs)
      invariant forall k :: 0 <= k < i ==> !Reads(listed, k, k)
    {
      forall cell, j: nat
        ensures WriterOf(writers, cell) == Some(j) <==> j < |listed| && listed[j].node.out == cell
      {
        WriterIsReader(listed, attached, writers, cell, j);
      }
      var read := ReadsOf(listed[i].cells, writers, Some(i));
      if read.None? {
        return inputs, Some(i);
      }
      inputs := inputs + [read.value];
    }
    own := None;
  }

  /**
   Lowers the detached nodes: refused exactly when two nodes write one cell a
   detached node writes, a node reads its own output, or nodes read each
   other round.
   */
  method Lower(host: Host, listed: seq<Listed>, attached: seq<Claim>) returns (lowered: Lowered)
    requires Listing(listed, attached)
    ensures lowered.Lowered? <==> Lowerable(listed, attached)
    ensures lowered.Lowered? ==> Wired(lowered.wiring) && InputsOf(listed, lowered.wiring.inputs)
    ensures lowered.Lowered? ==> lowered.wiring.host == host && |lowered.wiring.nodes| == |listed|
                                 && forall i :: 0 <= i < |listed| ==> lowered.wiring.nodes[i] == listed[i].node
    ensures lowered.ReadInCycle? ==> ReadRound(listed, lowered.nodes)
  {
    ListingIsConsistent(listed, attached);
    var claimed := ClaimAll(Claims(listed, attached));
    if claimed.Contested? {
      return TwoWriters(claimed.cell);
    }
    var inputs, own := FindInputs(listed, attached, claimed.writers);
    if own.Some? {
      return OwnOutput(own.value);
    }
    forall cycle ensures ReadRound(listed, cycle) <==> IsCycle(InputEdges(inputs), cycle) {
      RoundIsCycle(listed, inputs, cycle);
    }
    var sorted := Sort(inputs);
    if sorted.Cycle? {
      return ReadInCycle(sorted.nodes);
    }
    var nodes := seq(|listed|, i requires 0 <= i < |listed| => listed[i].node);
    var w := Wiring(host, nodes, inputs, sorted.order);
    OneWriterApart(listed, attached);
    lowered := Lowered(w);
  }

  lemma OneWriterApart(listed: seq<Listed>, attached: seq<Claim>)
    requires Listing(listed, attached) && OneWriter(Claims(listed, attached))
    ensures forall i, j :: 0 <= i < j < |listed| ==> listed[i].node.out != listed[j].node.out
  {
    var claims := Claims(listed, attached);
    forall i, j | 0 <= i < j < |listed| ensures listed[i].node.out != listed[j].node.out {
      assert !Clash(claims[i], claims[j]);
    }
  }

  // Who is brought up to date.

  datatype Plan = Plan(everyTick: seq<nat>, onDemand: seq<nat>, unused: seq<nat>)

  ghost function Sinks(w: Wiring): set<nat> {
    set at | 0 <= at < |w.nodes| && w.nodes[at].publish.Some?
  }

  /** The sinks, in the order the tree lists them. */
  method SinksOf(w: Wiring) returns (sinks: seq<nat>)
    ensures Ascending(sinks) && SetOf(sinks) == Sinks(w)
  {
    sinks := [];
    for at := 0 to |w.nodes|
      invariant Ascending(sinks) && forall k :: 0 <= k < |sinks| ==> sinks[k] < at
      invariant forall k :: k in sinks <==> 0 <= k < at && w.nodes[k].publish.Some?
    {
      if w.nodes[at].publish.Some? {
        sinks := sinks + [at];
      }
    }
  }

  /** Published, each key ends with what the last listed of the nodes bound to
      it that did not fail gave. */
  lemma LastListedWins(w: Wiring, caches: seq<Cache>, m: Memory, sinks: seq<nat>, at: nat, key: string)
    requires |caches| == |w.nodes| && Ascending(sinks) && SetOf(sinks) == Sinks(w)
    requires at < |w.nodes| && !caches[at].failed && w.nodes[at].publish == Some(key)
    requires forall k :: at < k < |w.nodes| ==> caches[k].failed || w.nodes[k].publish != Some(key)
    ensures forall k :: 0 <= k < |sinks| ==> sinks[k] < |w.nodes|
    ensures Held(Published(w, caches, m, sinks), Stored(key)) == WrittenBack(caches[at].ret, w.nodes[at].optional)
  {
    forall k | 0 <= k < |sinks| ensures sinks[k] < |w.nodes| {
      assert sinks[k] in Sinks(w);
    }
    assert at in Sinks(w);
    var i :| 0 <= i < |sinks| && sinks[i] == at;
    LastSinkWins(w, caches, m, sinks, i, key);
  }

  /** The first `i` of the order, parted: what `every` holds first, in order
      after what it reads. */
  ghost predicate Parted(w: Wiring, plan: Plan, i: nat, every: set<nat>, demand: set<nat>)
    requires i <= |w.order|
  {
    var first := w.order[..i];
    && SetOf(plan.everyTick) == SetOf(first) * every
    && SetOf(plan.onDemand) == SetOf(first) * (demand - every)
    && SetOf(plan.unused) == SetOf(first) - every - demand
    && multiset(plan.everyTick) + multiset(plan.onDemand) + multiset(plan.unused) == multiset(first)
    && PostOrdered(InputEdges(w.inputs), plan.everyTick)
  }

  lemma PartedFurther(w: Wiring, plan: Plan, i: nat, every: set<nat>, demand: set<nat>)
    requires Wired(w) && i < |w.order| && Parted(w, plan, i, every, demand) && Closed(InputEdges(w.inputs), every)
    ensures var at := w.order[i];
            Parted(w,
                   if at in every then plan.(everyTick := plan.everyTick + [at])
                   else if at in demand then plan.(onDemand := plan.onDemand + [at])
                   else plan.(unused := plan.unused + [at]), i + 1, every, demand)
  {
    var at, edges := w.order[i], InputEdges(w.inputs);
    var first := w.order[..i];
    assert w.order[..i + 1] == first + [at];
    SetOfMore(first, at);
    SetOfMore(plan.everyTick, at);
    SetOfMore(plan.onDemand, at);
    SetOfMore(plan.unused, at);
    assert at !in first;
    if at in every {
      forall child | child in Next(edges, at) ensures child in plan.everyTick {
        assert child in first && child in SetOf(first) * every;
      }
      assert at !in SetOf(plan.everyTick);
      PostOrderedMore(edges, plan.everyTick, at);
    }
  }

  lemma PostOrderedMore(edges: Edges<nat>, order: seq<nat>, at: nat)
    requires PostOrdered(edges, order) && at in edges && at !in order
    requires forall child :: child in Next(edges, at) ==> child in order
    ensures PostOrdered(edges, order + [at])
  {
    var longer := order + [at];
    forall k, child | 0 <= k < |longer| && child in Next(edges, longer[k]) ensures child in longer[..k] {
      if k < |order| {
        assert child in order[..k] && longer[..k] == order[..k];
      } else {
        assert longer[..k] == order;
      }
    }
  }

  /**
   Parts the nodes: every tick brings up to date the sinks, the observed nodes
   and all they read; a tree node that ticks, the rest of what it reads; the
   others nothing does.
   */
  method PlanOf(w: Wiring, observed: set<nat>, treeReads: seq<nat>) returns (plan: Plan)
    requires Wired(w) && (forall at :: at in observed ==> at < |w.nodes|)
    requires forall k :: 0 <= k < |treeReads| ==> treeReads[k] < |w.nodes|
    ensures SetOf(plan.everyTick) == ReadFor(w, Sinks(w) + observed)
    ensures SetOf(plan.onDemand) == ReadFor(w, SetOf(treeReads)) - SetOf(plan.everyTick)
    ensures SetOf(plan.unused) !! ReadFor(w, Sinks(w) + observed) + ReadFor(w, SetOf(treeReads))
    ensures multiset(plan.everyTick) + multiset(plan.onDemand) + multiset(plan.unused) == multiset(w.order)
    ensures PostOrdered(InputEdges(w.inputs), plan.everyTick)
  {
    var starts: seq<nat> := [];
    for at := 0 to |w.nodes|
      invariant forall k :: k in starts <==> 0 <= k < at && (w.nodes[k].publish.Some? || k in observed)
    {
      if w.nodes[at].publish.Some? || at in observed {
        starts := starts + [at];
      }
    }
    assert SetOf(starts) == Sinks(w) + observed;
    var every := FindReach(InputEdges(w.inputs), starts);
    var demand := FindReach(InputEdges(w.inputs), treeReads);
    plan := Plan([], [], []);
    for i := 0 to |w.order|
      invariant Parted(w, plan, i, every, demand)
    {
      PartedFurther(w, plan, i, every, demand);
      var at := w.order[i];
      if at in every {
        plan := plan.(everyTick := plan.everyTick + [at]);
      } else if at in demand {
        plan := plan.(onDemand := plan.onDemand + [at]);
      } else {
        plan := plan.(unused := plan.unused + [at]);
      }
    }
    assert w.order[..|w.order|] == w.order;
    ReadsAreNodes(w, SetOf(starts));
    ReadsAreNodes(w, SetOf(treeReads));
  }

  lemma ReadsAreNodes(w: Wiring, starts: set<nat>)
    requires Wired(w) && forall at :: at in starts ==> at < |w.nodes|
    ensures ReadFor(w, starts) <= SetOf(w.order)
  {
    ReachIsLeast(InputEdges(w.inputs), starts, SetOf(w.order));
  }
}
