/** Ticks: what they lower, invoke, publish and sweep. */
module Ticking {
  import opened Integers
  import opened Selections
  import opened Digraphs
  import opened Graphs
  import opened GraphEdits
  import opened Scaffolds
  import opened Grafts
  import opened Decorators
  import opened Respawns
  import opened ScaffoldEdits
  import opened Devices

  // What a tick does.

  /** What ticking a run's program did, if it was ticked. */
  datatype Ticked = Unreached | Answered(status: Status) | Erred

  /** What a tick meets: which writes the store takes, which functions the
      device has, and what the tree does. */
  datatype Meets = Meets(
    haltsWritten: bool,
    revisionWritten: bool,
    /** The device's functions, and whether the graph lowers against them. */
    functions: Functions,
    lowers: bool,
    revisionRewritten: bool,
    outcomes: map<Uuid, Ticked>,
    ticks: bool,
    reports: bool)

  predicate Terminal(latch: Option<Status>) {
    latch.Some? && latch.value != Running
  }

  function OutcomeOf(m: Meets, decorator: Uuid): Ticked {
    if decorator in m.outcomes then m.outcomes[decorator] else Unreached
  }

  /** The decorators whose program a tick invokes: those reached, not latched. */
  function Invoked(latches: Latches, m: Meets): set<Uuid> {
    set decorator | decorator in latches && !Terminal(latches[decorator]) && OutcomeOf(m, decorator) != Unreached
  }

  /** What a decorator mirrors of its program: an error is a failure. */
  function Mirrored(t: Ticked): Status
    requires t != Unreached
  {
    if t.Erred? then Failure else t.status
  }

  function LatchesAfter(latches: Latches, m: Meets): Latches {
    map decorator | decorator in latches ::
      if decorator in Invoked(latches, m) && Mirrored(OutcomeOf(m, decorator)) != Running
      then Some(Mirrored(OutcomeOf(m, decorator))) else latches[decorator]
  }

  function PublishedAfter(published: map<Uuid, Status>, latches: Latches, m: Meets): map<Uuid, Status> {
    published + map decorator | decorator in Invoked(latches, m) :: Mirrored(OutcomeOf(m, decorator))
  }

  /** The latches of a new lowering: those of the previous one, but for the
      decorators that start afresh and new ones, whose latch is empty. */
  function CarriedBy(latches: Option<Latches>, decorators: set<Uuid>, afresh: set<Uuid>): Latches {
    map decorator | decorator in decorators ::
      if latches.Some? && decorator in latches.value && decorator !in afresh then latches.value[decorator] else None
  }

  function Carried(d: Device): Latches {
    CarriedBy(d.latches, DecoratorsOf(All(d)), d.afresh)
  }

  predicate Ended(d: Device, run: Run) {
    run.decorator in d.published && d.published[run.decorator] != Running
  }

  function WhichEnded(d: Device, runs: seq<Run>, ended: bool): seq<Run> {
    if runs == [] then []
    else (if Ended(d, runs[0]) == ended then [runs[0]] else []) + WhichEnded(d, runs[1..], ended)
  }

  /** The runs that ended, latched, wait to be pruned. */
  function Swept(d: Device): Device {
    d.(runs := WhichEnded(d, d.runs, false), finished := d.finished + WhichEnded(d, d.runs, true),
       dirty := d.dirty || WhichEnded(d, d.runs, true) != [])
  }

  function Written(d: Device): Device {
    d.(written := Some(d.revision))
  }

  /** The device once its graph is lowered. */
  function Lowering(d: Device, functions: Functions): Device {
    d.(latches := Some(Carried(d)), afresh := {}, dirty := false, functions := functions)
  }

  /** The changed graph lowered, the finished runs pruned from it. */
  function LoweredAfter(f: Result, m: Meets): Result {
    if !f.ok || !m.lowers then Result(f.device, false)
    else
      var l := Lowering(f.device, m.functions);
      if l.written != Some(l.revision) && !m.revisionRewritten then Result(l, false) else Result(Written(l), true)
  }

  /** Whether a tick replaces the lowered tree. */
  ghost predicate Relowers(c: Config, d: Device, m: Meets) {
    d.dirty && FinishedResult(c, d).ok && m.lowers
  }

  /** Lowers the graph anew when it changed. */
  ghost function LoweredResult(c: Config, d: Device, m: Meets): Result {
    if !d.dirty then Result(d, true) else LoweredAfter(FinishedResult(c, d), m)
  }

  /** The tree with its latches and statuses after a tick. */
  function TickedTree(d: Device, m: Meets): Device {
    if d.latches.None? then d
    else d.(latches := Some(LatchesAfter(d.latches.value, m)),
            published := PublishedAfter(d.published, d.latches.value, m))
  }

  /** Ticks the lowered tree, and sweeps the runs that ended. */
  function TreeResult(d: Device, m: Meets): Result {
    if m.ticks then Result(Swept(TickedTree(d, m)), m.reports) else Result(TickedTree(d, m), false)
  }

  function TreeAfter(l: Result, m: Meets): Result {
    if l.ok then TreeResult(l.device, m) else l
  }

  ghost function TickResult(c: Config, d: Device, m: Meets): Result {
    if !m.haltsWritten || (d.written != Some(d.revision) && !m.revisionWritten) then Result(d, false)
    else TreeAfter(LoweredResult(c, Written(d), m), m)
  }

  // Sweeping.

  lemma {:induction false} DistinctIsOnce<T>(s: seq<T>)
    ensures Distinct(s) <==> forall x :: multiset(s)[x] <= 1
    decreases |s|
  {
    if s != [] {
      var init, last := s[..|s| - 1], s[|s| - 1];
      DistinctIsOnce(init);
      assert s == init + [last];
      assert multiset(s) == multiset(init) + multiset{last};
      if Distinct(s) {
        assert last !in init;
        assert Distinct(init);
      } else if Distinct(init) {
        assert last in init;
        assert multiset(s)[last] > 1;
      } else {
        var x :| multiset(init)[x] > 1;
        assert multiset(s)[x] > 1;
      }
    }
  }

  lemma {:induction false} EndedSplits(d: Device, runs: seq<Run>)
    ensures SetOf(WhichEnded(d, runs, false)) + SetOf(WhichEnded(d, runs, true)) == SetOf(runs)
    decreases |runs|
  {
    if runs != [] {
      EndedSplits(d, runs[1..]);
      assert SetOf(runs) == {runs[0]} + SetOf(runs[1..]) by {
        assert runs == [runs[0]] + runs[1..];
      }
      EndedFirst(d, runs);
    }
  }

  lemma EndedFirst(d: Device, runs: seq<Run>)
    requires runs != []
    ensures var e := Ended(d, runs[0]);
            WhichEnded(d, runs, e) == [runs[0]] + WhichEnded(d, runs[1..], e)
            && WhichEnded(d, runs, !e) == WhichEnded(d, runs[1..], !e)
  {
  }

  lemma {:induction false} EndedKeepDecorators(d: Device, runs: seq<Run>)
    ensures multiset(DecoratorList(WhichEnded(d, runs, false))) + multiset(DecoratorList(WhichEnded(d, runs, true)))
            == multiset(DecoratorList(runs))
    decreases |runs|
  {
    if runs != [] {
      EndedKeepDecorators(d, runs[1..]);
      EndedFirst(d, runs);
      var e := Ended(d, runs[0]);
      FirstDecorator(runs[0], runs[1..]);
      FirstDecorator(runs[0], WhichEnded(d, runs[1..], e));
      assert runs == [runs[0]] + runs[1..];
    }
  }

  lemma FirstDecorator(run: Run, rest: seq<Run>)
    ensures multiset(DecoratorList([run] + rest)) == multiset{run.decorator} + multiset(DecoratorList(rest))
  {
    assert DecoratorList([run] + rest) == [run.decorator] + DecoratorList(rest);
  }

  lemma ListJoins(a: seq<Run>, b: seq<Run>)
    ensures DecoratorList(a + b) == DecoratorList(a) + DecoratorList(b)
  {
  }

  /** Sweeping moves runs from one list to the other. */
  lemma SweptAlike(d: Device)
    ensures All(Swept(d)) == All(d) && (Orderly(d) ==> Orderly(Swept(d)))
  {
    var live, ended := WhichEnded(d, d.runs, false), WhichEnded(d, d.runs, true);
    EndedSplits(d, d.runs);
    EndedKeepDecorators(d, d.runs);
    ListJoins(d.runs, d.finished);
    ListJoins(live, d.finished + ended);
    ListJoins(d.finished, ended);
    var before, after := DecoratorList(d.runs + d.finished), DecoratorList(live + (d.finished + ended));
    assert multiset(after) == multiset(before);
    DistinctIsOnce(before);
    DistinctIsOnce(after);
    forall run ensures run in All(Swept(d)) <==> run in All(d) {
      assert run in d.runs <==> run in live || run in ended by {
        assert run in SetOf(d.runs) <==> run in SetOf(live) + SetOf(ended);
      }
    }
  }

  function Later(places: seq<nat>): seq<nat> {
    seq(|places|, i requires 0 <= i < |places| => places[i] + 1)
  }

  /** The places of the runs that ended, or of those that did not. */
  function PlacesOf(d: Device, runs: seq<Run>, ended: bool): seq<nat> {
    if runs == [] then []
    else (if Ended(d, runs[0]) == ended then [0] else []) + Later(PlacesOf(d, runs[1..], ended))
  }

  lemma LaterPick<T>(whole: seq<T>, places: seq<nat>, part: seq<T>)
    requires whole != [] && Picks(whole[1..], places, part)
    ensures Picks(whole, Later(places), part) && Picks(whole, [0] + Later(places), [whole[0]] + part)
  {
  }

  lemma {:induction false} PlacesHold(d: Device, runs: seq<Run>, ended: bool)
    ensures Picks(runs, PlacesOf(d, runs, ended), WhichEnded(d, runs, ended))
    decreases |runs|
  {
    hide Picks;
    if runs == [] {
      assert Picks<Run>([], [], []) by {
        NonePicked<Run>();
      }
    } else {
      PlacesHold(d, runs[1..], ended);
      LaterPick(runs, PlacesOf(d, runs[1..], ended), WhichEnded(d, runs[1..], ended));
      var later, rest := Later(PlacesOf(d, runs[1..], ended)), WhichEnded(d, runs[1..], ended);
      assert [] + later == later && [] + rest == rest;
    }
  }

  lemma NonePicked<T>()
    ensures Picks<T>([], [], [])
  {
  }

  lemma {:induction false} PlacesTell(d: Device, runs: seq<Run>, ended: bool, k: nat)
    requires k < |runs|
    ensures k in PlacesOf(d, runs, ended) <==> Ended(d, runs[k]) == ended
    decreases |runs|
  {
    var rest := PlacesOf(d, runs[1..], ended);
    LaterIs(rest, Later(rest), k);
    if k > 0 {
      PlacesTell(d, runs[1..], ended, k - 1);
    }
  }

  lemma LaterIs(rest: seq<nat>, later: seq<nat>, k: nat)
    requires |later| == |rest| && forall i :: 0 <= i < |rest| ==> later[i] == rest[i] + 1
    ensures k in later <==> k > 0 && k - 1 in rest
  {
    if k in later {
      var i :| 0 <= i < |later| && later[i] == k;
      assert rest[i] == k - 1;
    }
    if k > 0 && k - 1 in rest {
      var i :| 0 <= i < |rest| && rest[i] == k - 1;
      assert later[i] == k;
    }
  }

  /** The run's decorator has published success or failure. */
  predicate HasEndStatus(published: map<Uuid, Status>, run: Run) {
    run.decorator in published && (published[run.decorator] == Success || published[run.decorator] == Failure)
  }

  /** What a sweep does: a run is finished exactly when it has an end status;
      both kinds keep their order; one that finished calls for a lowering. */
  ghost predicate Sweeps(runs: seq<Run>, finished: seq<Run>, dirty: bool, after: Device) {
    exists live, ended: seq<nat> ::
      && Picks(runs, live, after.runs)
      && |finished| <= |after.finished| && after.finished[..|finished|] == finished
      && Picks(runs, ended, after.finished[|finished|..])
      && (forall k: nat :: k < |runs| ==> (k in ended <==> HasEndStatus(after.published, runs[k])))
      && (forall k: nat :: k < |runs| ==> (k in live <==> !HasEndStatus(after.published, runs[k])))
      && (after.dirty <==> dirty || ended != [])
  }

  lemma SweptSweeps(d: Device)
    ensures Sweeps(d.runs, d.finished, d.dirty, Swept(d))
  {
    hide PlacesOf, WhichEnded, HasEndStatus, Ended;
    var after := Swept(d);
    var live, ended := PlacesOf(d, d.runs, false), PlacesOf(d, d.runs, true);
    assert after.finished[|d.finished|..] == WhichEnded(d, d.runs, true);
    PlacesHold(d, d.runs, false);
    PlacesHold(d, d.runs, true);
    forall k: nat | k < |d.runs|
      ensures (k in live <==> !HasEndStatus(after.published, d.runs[k]))
              && (k in ended <==> HasEndStatus(after.published, d.runs[k]))
    {
      EndIsNotRunning(d, d.runs[k]);
      PlacesTell(d, d.runs, false, k);
      PlacesTell(d, d.runs, true, k);
    }
  }

  lemma EndIsNotRunning(d: Device, run: Run)
    ensures Ended(d, run) <==> HasEndStatus(d.published, run)
  {
    if run.decorator in d.published {
      match d.published[run.decorator] {
        case Success =>
        case Failure =>
        case Running =>
      }
    }
  }

  /**
   A tick that succeeds sweeps: of the live runs, those whose published status
   is success or failure are finished, after the ones still listed, and the
   others stay live, all in their order; if one finished the next tick lowers.
   */
  lemma TickSweeps(c: Config, d: Device, m: Meets)
    requires TickResult(c, d, m).ok
    ensures var after := TickResult(c, d, m).device;
            Sweeps(d.runs, if d.dirty then [] else d.finished, false, after)
  {
    hide Swept, Sweeps, WhichEnded;
    var l := LoweredResult(c, Written(d), m).device;
    FinishedLists(c, Written(d));
    SweptSweeps(TickedTree(l, m));
  }

  // Ticks.

  lemma WrittenAlike(c: Config, d: Device)
    ensures Stands(c, d) ==> Stands(c, Written(d))
    ensures Guarded(c, d) ==> Guarded(c, Written(d))
    ensures Orderly(Written(d)) == Orderly(d) && MainOf(c, Written(d)) == MainOf(c, d) && All(Written(d)) == All(d)
  {
  }

  lemma LoweringAlike(c: Config, d: Device, functions: Functions)
    ensures Stands(c, d) ==> Stands(c, Lowering(d, functions))
    ensures Guarded(c, d) ==> Guarded(c, Lowering(d, functions))
    ensures Orderly(d) ==> Orderly(Lowering(d, functions))
    ensures MainOf(c, Lowering(d, functions)) == MainOf(c, d) && Lowering(d, functions).revision == d.revision
  {
  }

  lemma LoweredAfterStands(c: Config, d: Device, f: Result, m: Meets)
    requires Stands(c, f.device) && (f.ok ==> Revises(c, d, f.device))
    ensures var r := LoweredAfter(f, m); Stands(c, r.device) && (r.ok ==> Revises(c, d, r.device))
  {
    var l := Lowering(f.device, m.functions);
    LoweringAlike(c, f.device, m.functions);
    WrittenAlike(c, l);
    var r := LoweredAfter(f, m).device;
    assert r == f.device || r == l || r == Written(l);
    assert MainOf(c, r) == MainOf(c, f.device);
  }

  lemma LoweredStands(c: Config, d: Device, m: Meets)
    requires Stands(c, d)
    ensures var r := LoweredResult(c, d, m); Stands(c, r.device) && (r.ok ==> Revises(c, d, r.device))
  {
    if d.dirty {
      FinishedStands(c, d);
      LoweredAfterStands(c, d, FinishedResult(c, d), m);
    }
  }

  lemma LoweredAfterGuarded(c: Config, f: Result, m: Meets)
    requires Orderly(f.device) && Guarded(c, f.device)
    ensures var r := LoweredAfter(f, m); Orderly(r.device) && Guarded(c, r.device)
  {
    LoweringAlike(c, f.device, m.functions);
    WrittenAlike(c, Lowering(f.device, m.functions));
  }

  lemma LoweredGuarded(c: Config, d: Device, m: Meets)
    requires Stands(c, d) && Orderly(d) && Guarded(c, d)
    ensures var r := LoweredResult(c, d, m); Orderly(r.device) && Guarded(c, r.device)
  {
    if d.dirty {
      FinishedGuarded(c, d);
      LoweredAfterGuarded(c, FinishedResult(c, d), m);
    }
  }

  lemma TreeGuarded(c: Config, d: Device, m: Meets)
    requires Orderly(d) && Guarded(c, d)
    ensures var after := TreeResult(d, m).device; Orderly(after) && Guarded(c, after)
  {
    SweptAlike(TickedTree(d, m));
  }

  lemma TreeStands(c: Config, d: Device, m: Meets)
    requires Stands(c, d)
    ensures var after := TreeResult(d, m).device;
            Stands(c, after) && MainOf(c, after) == MainOf(c, d) && after.revision == d.revision
  {
    SweptAlike(TickedTree(d, m));
  }

  lemma TickStands(c: Config, d: Device, m: Meets)
    requires Stands(c, d)
    ensures var r := TickResult(c, d, m); Stands(c, r.device) && (r.ok ==> Revises(c, d, r.device))
  {
    hide Reach, Stands, MainOf, LoweredResult, TreeAfter;
    WrittenAlike(c, d);
    LoweredStands(c, Written(d), m);
    TreeAfterStands(c, Written(d), LoweredResult(c, Written(d), m), m);
  }

  lemma TreeAfterStands(c: Config, d: Device, l: Result, m: Meets)
    requires Stands(c, l.device) && (l.ok ==> Revises(c, d, l.device))
    ensures var r := TreeAfter(l, m); Stands(c, r.device) && (r.ok ==> Revises(c, d, r.device))
  {
    TreeStands(c, l.device, m);
  }

  lemma TreeAfterGuarded(c: Config, l: Result, m: Meets)
    requires Orderly(l.device) && Guarded(c, l.device)
    ensures Orderly(TreeAfter(l, m).device) && Guarded(c, TreeAfter(l, m).device)
  {
    if l.ok {
      TreeGuarded(c, l.device, m);
    }
  }

  lemma TickGuarded(c: Config, d: Device, m: Meets)
    requires Stands(c, d) && Orderly(d) && Guarded(c, d)
    ensures Orderly(TickResult(c, d, m).device) && Guarded(c, TickResult(c, d, m).device)
  {
    WrittenAlike(c, d);
    LoweredStands(c, Written(d), m);
    LoweredGuarded(c, Written(d), m);
    TreeAfterGuarded(c, LoweredResult(c, Written(d), m), m);
  }
}
