/**
 What a tick does to the device, step by step: what is written, lowered and
 ticked, and what each run's latch and status are after it.
 */
module TickOutcomes {
  import opened Integers
  import opened Graphs
  import opened Scaffolds
  import opened ScaffoldEdits
  import opened Devices
  import opened Ticking

  predicate HasEnd(latches: Latches, d: Uuid) {
    d in latches && (latches[d] == Some(Success) || latches[d] == Some(Failure))
  }

  /** What the tree's tick did of a run's program. */
  function Outcome(m: Meets, d: Uuid): Ticked {
    if d in m.outcomes then m.outcomes[d] else Unreached
  }

  /** A decorator that was reached and held no end has published what its program
      answered, an error as a failure, and holds it if that is an end; every
      other is as it was. */
  ghost predicate DecoratorTicks(before: Latches, published: map<Uuid, Status>, m: Meets, after: Device, d: Uuid) {
    && after.latches.Some? && (d in after.latches.value <==> d in before)
    && if d !in before || HasEnd(before, d) || Outcome(m, d) == Unreached then
         && (d in before ==> after.latches.value[d] == before[d])
         && (d in after.published <==> d in published)
         && (d in published ==> after.published[d] == published[d])
       else
         var status := if Outcome(m, d) == Erred then Failure else Outcome(m, d).status;
         && d in after.published && after.published[d] == status
         && after.latches.value[d] == if status == Running then before[d] else Some(status)
  }

  lemma TreeTicks(l: Device, m: Meets, d: Uuid)
    requires l.latches.Some?
    ensures DecoratorTicks(l.latches.value, l.published, m, TickedTree(l, m), d)
    ensures TickedTree(l, m) == l.(latches := TickedTree(l, m).latches, published := TickedTree(l, m).published)
  {
    var before := l.latches.value;
    if d in before {
      EndIsTerminal(before, d);
    }
    assert d in Invoked(before, m) <==> d in before && !HasEnd(before, d) && Outcome(m, d) != Unreached;
  }

  lemma EndIsTerminal(latches: Latches, d: Uuid)
    requires d in latches
    ensures Terminal(latches[d]) <==> HasEnd(latches, d)
  {
    if latches[d].Some? {
      match latches[d].value {
        case Success =>
        case Failure =>
        case Running =>
      }
    }
  }

  /** A new lowering has each run's decorator, with the latch the old one gave it
      unless it starts afresh; a new one's is empty. */
  ghost predicate Relatched(f: Device, after: Latches) {
    forall d ::
      && (d in after <==> exists run :: run in f.runs + f.finished && run.decorator == d)
      && (d in after ==>
            after[d] == if f.latches.Some? && d in f.latches.value && d !in f.afresh then f.latches.value[d] else None)
  }

  lemma LoweringLatches(f: Device, functions: Functions)
    ensures var l := Lowering(f, functions);
            && l.latches.Some? && Relatched(f, l.latches.value)
            && l == f.(latches := l.latches, afresh := {}, dirty := false, functions := functions)
  {
    forall d ensures d in DecoratorsOf(All(f)) <==> exists run :: run in f.runs + f.finished && run.decorator == d {
      if run :| run in f.runs + f.finished && run.decorator == d {
        assert run in All(f);
      }
    }
  }

  /** What is ticked: the tree there is, or, if the graph changed, the new one, its
      finished runs pruned first. */
  ghost predicate ComesToTick(c: Config, d: Device, m: Meets, l: Device) {
    if !d.dirty then l == d.(written := Some(d.revision))
    else
      var f := FinishedResult(c, d.(written := Some(d.revision)));
      && f.ok && m.lowers
      && (f.device.revision == d.revision || m.revisionRewritten)
      && l.latches.Some? && Relatched(f.device, l.latches.value)
      && l == f.device.(latches := l.latches, afresh := {}, dirty := false, functions := m.functions,
                        written := Some(f.device.revision))
  }

  lemma WritesBefore(c: Config, d: Device)
    ensures FinishedResult(c, Written(d)).device.written == Some(d.revision)
  {
  }

  /**
   A tick comes to its tree exactly when the halts and the revision could be
   written and, if the graph changed, when the finished runs could be pruned,
   the graph lowers, and a revision that moved by it could be written.
   */
  lemma ComesToTree(c: Config, d: Device, m: Meets)
    ensures var l := LoweredResult(c, Written(d), m);
            && (l.ok <==> ComesToTick(c, d, m, l.device))
            && (l.ok <==> !d.dirty
                          || (FinishedResult(c, Written(d)).ok && m.lowers
                              && (FinishedResult(c, Written(d)).device.revision == d.revision || m.revisionRewritten)))
  {
    hide FinishedResult, Relatched, Carried;
    WritesBefore(c, d);
    LoweringLatches(FinishedResult(c, Written(d)).device, m.functions);
  }

  /** What a tick that comes to its tree leaves: the tree ticked, whatever follows,
      and the runs swept unless the tree failed. */
  lemma TickDoes(c: Config, d: Device, m: Meets, l: Device)
    requires m.haltsWritten && (d.written == Some(d.revision) || m.revisionWritten)
    requires LoweredResult(c, Written(d), m) == Result(l, true) && l.latches.Some?
    ensures var r := TickResult(c, d, m);
            && ComesToTick(c, d, m, l) && (r.ok <==> m.ticks && m.reports)
            && (forall decorator :: DecoratorTicks(l.latches.value, l.published, m, r.device, decorator))
            && r.device.graph == l.graph && r.device.mainRoot == l.mainRoot && r.device.revision == l.revision
            && r.device.written == Some(l.revision) && r.device.afresh == l.afresh && r.device.functions == l.functions
            && (m.ticks ==> Sweeps(l.runs, l.finished, l.dirty, r.device))
            && (!m.ticks ==> r.device.runs == l.runs && r.device.finished == l.finished && r.device.dirty == l.dirty)
  {
    hide LoweredResult, ComesToTick, Swept, Sweeps, TickedTree, DecoratorTicks;
    ComesToTree(c, d, m);
    var t := TickedTree(l, m);
    SweptSweeps(t);
    forall decorator ensures DecoratorTicks(l.latches.value, l.published, m, TickResult(c, d, m).device, decorator) {
      TreeTicks(l, m, decorator);
      SweptTicks(l, t, m, decorator);
    }
    TreeTicks(l, m, c.runner);
    SweptKeeps(t);
    WrittenThere(c, d, m);
  }

  lemma SweptKeeps(t: Device)
    ensures var s := Swept(t); s == t.(runs := s.runs, finished := s.finished, dirty := s.dirty)
  {
  }

  lemma SweptTicks(l: Device, t: Device, m: Meets, d: Uuid)
    requires l.latches.Some? && DecoratorTicks(l.latches.value, l.published, m, t, d)
    ensures DecoratorTicks(l.latches.value, l.published, m, Swept(t), d)
  {
  }

  lemma WrittenThere(c: Config, d: Device, m: Meets)
    ensures var l := LoweredResult(c, Written(d), m); l.ok ==> l.device.written == Some(l.device.revision)
  {
    hide FinishedResult;
    WritesBefore(c, d);
  }

  /** A tick that does not come to its tree fails, and changes nothing that it
      could not write or lower. */
  lemma TickStops(c: Config, d: Device, m: Meets)
    ensures !m.haltsWritten || (d.written != Some(d.revision) && !m.revisionWritten) ==>
              TickResult(c, d, m) == Result(d, false)
    ensures m.haltsWritten && (d.written == Some(d.revision) || m.revisionWritten) && d.dirty
            && (!FinishedResult(c, Written(d)).ok || !m.lowers) ==>
              TickResult(c, d, m) == Result(FinishedResult(c, Written(d)).device, false)
  {
    hide FinishedResult;
  }
}
