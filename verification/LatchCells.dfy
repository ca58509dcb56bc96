/**
 The latches of the runs' decorators, in the cells of their literal arguments:
 a new lowering that takes over the previous one's cells carries the latches.
 */
module LatchCells {
  import opened Integers
  import opened Graphs
  import opened Decorators
  import opened Devices
  import opened Ticking
  import Sweeps
  import Carrying

  /** A latch as a value: none, or the status it holds. */
  function LatchOf(held: Option<Value>): Option<Status> {
    match held
    case Some(Data(content)) =>
      if content == 0 then Some(Success)
      else if content == 1 then Some(Failure)
      else if content == 2 then Some(Running)
      else None
    case _ => None
  }

  function LatchPort(decorator: Uuid): Port {
    Port(decorator, RUN_STATUS_LATCH)
  }

  /** The tree's decorators, each with its latch a literal that starts empty. */
  ghost predicate HasLatches(t: Carrying.Tree, resolve: Sweeps.Resolver, owners: Sweeps.Owners, decorators: set<Uuid>) {
    && Carrying.Lowered(t, resolve, owners)
    && forall d {:trigger LatchPort(d)} :: d in decorators ==>
         LatchPort(d) in t.args && t.args[LatchPort(d)] == Sweeps.Constant(Unit)
         && Carrying.OwnsFor(t, owners, LatchPort(d))
  }

  ghost function LatchesIn(t: Carrying.Tree, resolve: Sweeps.Resolver, owners: Sweeps.Owners,
                           decorators: set<Uuid>): Latches
    requires HasLatches(t, resolve, owners, decorators)
    reads owners.Keys
  {
    map d | d in decorators :: LatchOf(t.cells[LatchPort(d)].cell.value)
  }

  lemma StartsEmpty(t: Carrying.Tree, owners: Sweeps.Owners, d: Uuid)
    requires Carrying.OwnsFor(t, owners, LatchPort(d)) && Sweeps.Started(t.args, owners)
    requires LatchPort(d) in t.args && t.args[LatchPort(d)] == Sweeps.Constant(Unit)
    ensures t.cells[LatchPort(d)].cell.value == Some(Unit)
  {
  }

  /** The cell a decorator's latch is carried from: its own, if it starts afresh. */
  lemma LatchPartner(mine: Carrying.Tree, theirs: Carrying.Tree, owners: Sweeps.Owners, theirOwners: Sweeps.Owners,
                     afresh: set<Uuid>, ids: set<Uuid>, d: Uuid)
    requires LatchPort(d) in mine.args && mine.args[LatchPort(d)] == Sweeps.Constant(Unit)
    requires Carrying.OwnsFor(mine, owners, LatchPort(d))
    requires d !in afresh ==> Carrying.OwnsFor(theirs, theirOwners, LatchPort(d))
    ensures Carrying.Partner(mine, theirs, owners, theirOwners,
                             Carrying.CarriedPorts(mine, afresh, mine.args.Keys), ids, mine.cells[LatchPort(d)].cell)
            == if d in afresh then mine.cells[LatchPort(d)].cell else theirs.cells[LatchPort(d)].cell
  {
    var ports := Carrying.CarriedPorts(mine, afresh, mine.args.Keys);
    assert LatchPort(d) in ports <==> d !in afresh;
  }

  /** What the cells held: the new tree's latches nothing, the previous one's `was`. */
  ghost predicate HeldLatches(mine: Carrying.Tree, theirs: Carrying.Tree, owners: Sweeps.Owners,
                              theirOwners: Sweeps.Owners, decorators: set<Uuid>, was: Latches, had: Carrying.Held)
  {
    && (forall d {:trigger LatchPort(d)} :: d in decorators ==>
          && Carrying.OwnsFor(mine, owners, LatchPort(d)) && mine.cells[LatchPort(d)].cell in had
          && had[mine.cells[LatchPort(d)].cell] == Some(Unit))
    && (forall d {:trigger LatchPort(d)} :: d in was ==>
          && Carrying.OwnsFor(theirs, theirOwners, LatchPort(d)) && theirs.cells[LatchPort(d)].cell in had
          && LatchOf(had[theirs.cells[LatchPort(d)].cell]) == was[d])
  }

  lemma LatchCarries(mine: Carrying.Tree, theirs: Carrying.Tree, owners: Sweeps.Owners, theirOwners: Sweeps.Owners,
                     afresh: set<Uuid>, ids: set<Uuid>, decorators: set<Uuid>, was: Latches, had: Carrying.Held,
                     d: Uuid)
    requires HeldLatches(mine, theirs, owners, theirOwners, decorators, was, had) && d in decorators
    requires LatchPort(d) in mine.args && mine.args[LatchPort(d)] == Sweeps.Constant(Unit)
    requires d !in afresh ==> d in was
    requires Carrying.Exchanged(mine, theirs, owners, theirOwners, Carrying.CarriedPorts(mine, afresh, mine.args.Keys),
                                ids, had)
    ensures mine.cells[LatchPort(d)].Local?
    ensures LatchOf(mine.cells[LatchPort(d)].cell.value) == if d in afresh then None else was[d]
  {
    hide Carrying.Partner, Carrying.CarriedPorts;
    LatchPartner(mine, theirs, owners, theirOwners, afresh, ids, d);
    var c, ports := mine.cells[LatchPort(d)].cell, Carrying.CarriedPorts(mine, afresh, mine.args.Keys);
    assert Carrying.HoldsPartners(c, Carrying.Partner(mine, theirs, owners, theirOwners, ports, ids, c), had);
  }

  lemma LatchesCarry(mine: Carrying.Tree, theirs: Carrying.Tree, resolve: Sweeps.Resolver, owners: Sweeps.Owners,
                     theirOwners: Sweeps.Owners, afresh: set<Uuid>, ids: set<Uuid>, decorators: set<Uuid>, was: Latches,
                     had: Carrying.Held)
    requires HeldLatches(mine, theirs, owners, theirOwners, decorators, was, had)
    requires HasLatches(mine, resolve, owners, decorators)
    requires forall d :: d in decorators && d !in afresh ==> d in was
    requires Carrying.Exchanged(mine, theirs, owners, theirOwners, Carrying.CarriedPorts(mine, afresh, mine.args.Keys),
                                ids, had)
    ensures LatchesIn(mine, resolve, owners, decorators) == CarriedBy(Some(was), decorators, afresh)
  {
    hide HeldLatches, Carrying.Exchanged, Carrying.CarriedPorts, Carrying.Lowered;
    forall d | d in decorators
      ensures mine.cells[LatchPort(d)].Local?
      ensures LatchOf(mine.cells[LatchPort(d)].cell.value) == if d in afresh then None else was[d]
    {
      LatchCarries(mine, theirs, owners, theirOwners, afresh, ids, decorators, was, had, d);
    }
  }

  /**
   A tree lowered anew, its cells as they start, takes over the previous
   tree's: its latches are the previous ones, but for the decorators that
   start afresh, whose latches are empty.
   */
  method KeepLatches(mine: Carrying.Tree, theirs: Carrying.Tree, resolve: Sweeps.Resolver, ghost owners: Sweeps.Owners,
                     ghost theirOwners: Sweeps.Owners, afresh: set<Uuid>, ghost decorators: set<Uuid>,
                     ghost was: Latches)
    requires Carrying.Pair(mine, theirs, resolve, owners, theirOwners)
    requires Carrying.ChangedAreAfresh(mine.args, theirs.args, afresh) && Sweeps.Started(mine.args, owners)
    requires HasLatches(mine, resolve, owners, decorators) && HasLatches(theirs, resolve, theirOwners, was.Keys)
    requires was == LatchesIn(theirs, resolve, theirOwners, was.Keys)
    requires forall d {:trigger LatchPort(d)} :: d in decorators && LatchPort(d) in theirs.args ==> d in was
    modifies owners.Keys, theirOwners.Keys
    ensures LatchesIn(mine, resolve, owners, decorators) == CarriedBy(Some(was), decorators, afresh)
  {
    hide Carrying.Pair, Carrying.Lowered, Carrying.CarriedPorts, Carrying.CarriedVariables, Carrying.ReadOn,
         Carrying.Exchanged, HeldLatches;
    ghost var had := map c | c in owners.Keys + theirOwners.Keys :: c.value;
    LatchesHeld(mine, theirs, resolve, owners, theirOwners, decorators, was, had);
    GoingOnWere(mine, theirs, resolve, owners, theirOwners, afresh, decorators, was);
    Carrying.KeepState(mine, theirs, afresh, resolve, owners, theirOwners, had);
    LatchesCarry(mine, theirs, resolve, owners, theirOwners, afresh,
                 Carrying.CarriedVariables(mine, theirs, Carrying.ReadOn(mine.args, afresh)), decorators, was, had);
  }

  lemma LatchesHeld(mine: Carrying.Tree, theirs: Carrying.Tree, resolve: Sweeps.Resolver, owners: Sweeps.Owners,
                    theirOwners: Sweeps.Owners, decorators: set<Uuid>, was: Latches, had: Carrying.Held)
    requires HasLatches(mine, resolve, owners, decorators) && HasLatches(theirs, resolve, theirOwners, was.Keys)
    requires Sweeps.Started(mine.args, owners) && was == LatchesIn(theirs, resolve, theirOwners, was.Keys)
    requires had.Keys == owners.Keys + theirOwners.Keys && forall c :: c in had ==> had[c] == c.value
    ensures HeldLatches(mine, theirs, owners, theirOwners, decorators, was, had)
  {
    hide Carrying.Lowered, Sweeps.Started;
    forall d | d in decorators ensures had[mine.cells[LatchPort(d)].cell] == Some(Unit) {
      StartsEmpty(mine, owners, d);
    }
  }

  lemma GoingOnWere(mine: Carrying.Tree, theirs: Carrying.Tree, resolve: Sweeps.Resolver, owners: Sweeps.Owners,
                    theirOwners: Sweeps.Owners, afresh: set<Uuid>, decorators: set<Uuid>, was: Latches)
    requires Carrying.ChangedAreAfresh(mine.args, theirs.args, afresh)
    requires HasLatches(mine, resolve, owners, decorators)
    requires forall d {:trigger LatchPort(d)} :: d in decorators && LatchPort(d) in theirs.args ==> d in was
    ensures forall d :: d in decorators && d !in afresh ==> d in was
  {
    hide Carrying.Lowered;
    forall d | d in decorators && d !in afresh ensures d in was {
      assert LatchPort(d) in mine.args && LatchPort(d).node == d;
    }
  }
}
