/**
 What each argument of a tree reads from its cell: what it starts with once the
 cells are set up, and what it holds once they are carried over.
 */
module CellValues {
  import opened Integers
  import opened Graphs
  import opened Sweeps
  import opened Carrying

  // Set up.

  /** What an argument's cell is and holds when it is set up: its literal, an id
      as a value, nothing yet for a call or a variable of the tree, the store's
      slot for a variable there, or the cell it was built with. */
  ghost predicate Begins(resolve: Resolver, e: Expression, cell: VariableCell)
    reads if cell.Local? then {cell.cell} else {}
  {
    match e
    case Constant(value) => cell.Local? && cell.cell.value == Some(value)
    case Identifier(id) => cell.Local? && cell.cell.value == Some(Data(id.bits))
    case Call(_) => cell.Local? && cell.cell.value == None
    case Variable(id) =>
      if resolve(id).Some? then cell == Stored(resolve(id).value) else cell.Local? && cell.cell.value == None
    case Given(given) => cell == given
    case Selection(source, _) => Begins(resolve, source, cell)
    case Argument(_) => true
  }

  /** An argument of its own: a literal, an id or a call, through any selection. */
  predicate IsItsOwn(e: Expression) {
    match e
    case Constant(_) => true
    case Identifier(_) => true
    case Call(_) => true
    case Selection(source, _) => IsItsOwn(source)
    case _ => false
  }

  lemma {:induction false} OwnIsSelected(e: Expression)
    ensures IsItsOwn(e) <==> HasOwnCell(e)
    ensures IsItsOwn(e) ==> Read(e).None?
  {
    if e.Selection? {
      OwnIsSelected(e.source);
    }
  }

  lemma {:induction false} BeginsAsSelected(resolve: Resolver, e: Expression, cell: VariableCell)
    ensures Begins(resolve, e, cell) <==> Begins(resolve, Selected(e), cell)
  {
    if e.Selection? {
      BeginsAsSelected(resolve, e.source, cell);
    }
  }

  lemma ItsHolder(args: Arguments, resolve: Resolver, cells: Cells, variables: Variables, owners: Owners, port: Port)
    requires Placed(args, resolve, cells, variables, owners) && port in cells && port in args && Read(args[port]).None?
    ensures IsFor(owners, cells[port], HolderOf(resolve, port, args[port]))
    ensures forall c :: c in owners ==> owners[c].OfPort? || owners[c].OfVariable?
  {
    hide Placed, Ends, HolderOf, IsFor;
    IsPlaced(args, resolve, cells, variables, owners, port);
    HoldsItself(args, resolve, port);
  }

  /** Once every argument is set up, one that reads another has its cell, and any
      other begins as its expression says. */
  lemma CellBegins(args: Arguments, resolve: Resolver, cells: Cells, variables: Variables, owners: Owners, port: Port)
    requires Placed(args, resolve, cells, variables, owners) && Started(args, owners) && BuiltWith(args) !! owners.Keys
    requires port in args && cells.Keys == args.Keys && forall p :: p in args ==> HasEndsCell(args, cells, p)
    ensures Begins(resolve, args[port], cells[port])
    ensures Read(args[port]).Some? ==> Read(args[port]).value in cells && cells[port] == cells[Read(args[port]).value]
  {
    hide Placed, Ends, BuiltWith;
    BeginsAsSelected(resolve, args[port], cells[port]);
    SelectedReads(args[port]);
    if Read(args[port]).None? {
      ItsHolder(args, resolve, cells, variables, owners, port);
      HolderBegins(args, resolve, owners, port, cells[port]);
    } else {
      ReadsOn(args, cells, port, Read(args[port]).value);
    }
  }

  lemma HolderBegins(args: Arguments, resolve: Resolver, owners: Owners, port: Port, cell: VariableCell)
    requires port in args && Started(args, owners) && IsFor(owners, cell, HolderOf(resolve, port, args[port]))
    requires !Selected(args[port]).Selection? && !Selected(args[port]).Argument?
    requires forall c :: c in owners ==> owners[c].OfPort? || owners[c].OfVariable?
    ensures Begins(resolve, Selected(args[port]), cell)
  {
  }

  lemma ReadsOn(args: Arguments, cells: Cells, port: Port, other: Port)
    requires port in args && Read(args[port]) == Some(other)
    requires HasEndsCell(args, cells, port) && forall p :: p in args ==> HasEndsCell(args, cells, p)
    ensures other in cells && cells[port] == cells[other]
  {
    EndsFromRead(args, port, other);
    EndsThere(args, port, other);
  }

  /** The chain goes on from the argument read. */
  lemma EndsFromRead(args: Arguments, port: Port, other: Port)
    requires port in args && Read(args[port]) == Some(other) && Ends(args, port)
    ensures other in args && Ends(args, other)
  {
    var path :| Chain(args, port, path);
    LinkReads(args, path, 0);
    var rest := path[1..];
    forall i: nat | i < |rest| - 1 ensures Link(args, rest, i) {
      LinkReads(args, path, i + 1);
    }
    LinkReads(args, path, 1);
    assert Chain(args, other, rest);
  }

  /** Two arguments of their own have two cells. */
  lemma OwnCellsDiffer(args: Arguments, resolve: Resolver, cells: Cells, variables: Variables, owners: Owners, a: Port,
                       b: Port)
    requires Placed(args, resolve, cells, variables, owners) && BuiltWith(args) !! owners.Keys
    requires cells.Keys == args.Keys && a in args && b in args && IsItsOwn(args[a]) && Read(args[b]).None?
    ensures cells[a] == cells[b] <==> a == b
  {
    hide Placed, Ends;
    OwnIsSelected(args[a]);
    ItsHolder(args, resolve, cells, variables, owners, a);
    ItsHolder(args, resolve, cells, variables, owners, b);
    HoldsItself(args, resolve, a);
    HoldsItself(args, resolve, b);
    SharedByEnd(args, resolve, cells, variables, owners, a, b);
  }

  // Carried over.

  /** The argument reads the variable, at any depth. */
  predicate Mentions(e: Expression, id: Uuid) {
    match e
    case Variable(variable) => variable == id
    case Selection(source, _) => Mentions(source, id)
    case Call(ids) => id in ids
    case _ => false
  }

  lemma {:induction false} MentionsTell(e: Expression, id: Uuid)
    ensures Mentions(e, id) <==> id in VariablesIn(e)
  {
    if e.Selection? {
      MentionsTell(e.source, id);
    }
  }

  lemma PartnersOf(mine: Tree, theirs: Tree, owners: Owners, theirOwners: Owners, ports: set<Port>, ids: set<Uuid>,
                   port: Port)
    requires owners.Keys !! theirOwners.Keys && OwnsFor(mine, owners, port)
    requires port in ports ==> OwnsFor(theirs, theirOwners, port)
    ensures Partner(mine, theirs, owners, theirOwners, ports, ids, mine.cells[port].cell)
            == if port in ports then theirs.cells[port].cell else mine.cells[port].cell
    ensures port in ports ==>
              Partner(mine, theirs, owners, theirOwners, ports, ids, theirs.cells[port].cell) == mine.cells[port].cell
  {
  }

  lemma VariablePartners(mine: Tree, theirs: Tree, owners: Owners, theirOwners: Owners, ports: set<Port>,
                         ids: set<Uuid>, id: Uuid)
    requires owners.Keys !! theirOwners.Keys && OwnsVariable(mine, owners, id)
    requires id in ids ==> OwnsVariable(theirs, theirOwners, id)
    ensures Partner(mine, theirs, owners, theirOwners, ports, ids, mine.variables[id].cell)
            == if id in ids then theirs.variables[id].cell else mine.variables[id].cell
    ensures id in ids ==>
              Partner(mine, theirs, owners, theirOwners, ports, ids, theirs.variables[id].cell)
              == mine.variables[id].cell
  {
  }

  /** `c` has what `other` had, and `other` what `c` had. */
  ghost predicate Swapped(c: LocalCell, other: LocalCell, had: Held)
    reads c, other
  {
    c in had && other in had && c.value == had[other] && other.value == had[c]
  }

  /** Both trees' cells for the argument, or the one if it starts afresh. */
  ghost predicate SwappedCells(mine: Cells, theirs: Cells, port: Port, had: Held)
    reads set c | c in mine.Values + theirs.Values && c.Local? :: c.cell
  {
    && port in mine && mine[port].Local? && port in theirs && theirs[port].Local?
    && Swapped(mine[port].cell, theirs[port].cell, had)
  }

  lemma HoldsIts(mine: Tree, theirs: Tree, owners: Owners, theirOwners: Owners, ports: set<Port>, ids: set<Uuid>,
                 had: Held, c: LocalCell, other: LocalCell)
    requires Exchanged(mine, theirs, owners, theirOwners, ports, ids, had)
    requires c in owners.Keys + theirOwners.Keys && other in owners.Keys + theirOwners.Keys
    requires Partner(mine, theirs, owners, theirOwners, ports, ids, c) == other
    requires Partner(mine, theirs, owners, theirOwners, ports, ids, other) == c
    ensures Swapped(c, other, had)
  {
    hide Partner;
    assert HoldsPartners(c, Partner(mine, theirs, owners, theirOwners, ports, ids, c), had);
    assert HoldsPartners(other, Partner(mine, theirs, owners, theirOwners, ports, ids, other), had);
  }

  lemma CarriedTells(mine: Tree, theirs: Tree, afresh: set<Uuid>, resolve: Resolver, owners: Owners,
                     theirOwners: Owners, port: Port)
    requires Pair(mine, theirs, resolve, owners, theirOwners) && ChangedAreAfresh(mine.args, theirs.args, afresh)
    requires port in mine.args && IsItsOwn(mine.args[port])
    ensures OwnsFor(mine, owners, port)
    ensures port in CarriedPorts(mine, afresh, mine.args.Keys) <==> port.node !in afresh
    ensures port.node !in afresh ==> OwnsFor(theirs, theirOwners, port)
    ensures owners.Keys !! theirOwners.Keys
  {
    hide Lowered, OwnsFor, HasOwnCell, IsItsOwn;
    OwnIsSelected(mine.args[port]);
    OwnIsOwned(mine, resolve, owners, port);
    if port.node !in afresh {
      OwnIsOwned(theirs, resolve, theirOwners, port);
    }
  }

  /** A node that goes on has for each argument of its own what the previous
      tree's cell of it held, which now holds what this one's did; one that
      starts afresh has what it had. */
  lemma ArgumentIsCarried(mine: Tree, theirs: Tree, afresh: set<Uuid>, resolve: Resolver, owners: Owners,
                          theirOwners: Owners, ids: set<Uuid>, had: Held, port: Port)
    requires Pair(mine, theirs, resolve, owners, theirOwners) && ChangedAreAfresh(mine.args, theirs.args, afresh)
    requires Exchanged(mine, theirs, owners, theirOwners, CarriedPorts(mine, afresh, mine.args.Keys), ids, had)
    requires port in mine.args && IsItsOwn(mine.args[port])
    ensures SwappedCells(mine.cells, (if port.node in afresh then mine else theirs).cells, port, had)
  {
    hide Pair, Partner, Exchanged, IsItsOwn, CarriedPorts, ChangedAreAfresh, Swapped;
    CarriedTells(mine, theirs, afresh, resolve, owners, theirOwners, port);
    var ports := CarriedPorts(mine, afresh, mine.args.Keys);
    PartnersOf(mine, theirs, owners, theirOwners, ports, ids, port);
    var cell := mine.cells[port].cell;
    if port.node in afresh {
      HoldsIts(mine, theirs, owners, theirOwners, ports, ids, had, cell, cell);
    } else {
      HoldsIts(mine, theirs, owners, theirOwners, ports, ids, had, cell, theirs.cells[port].cell);
    }
  }

  lemma ReadTells(mine: Tree, theirs: Tree, afresh: set<Uuid>, resolve: Resolver, owners: Owners,
                  theirOwners: Owners, id: Uuid)
    requires Pair(mine, theirs, resolve, owners, theirOwners)
    requires id in mine.variables && mine.variables[id].Local?
    ensures OwnsVariable(mine, owners, id) && owners.Keys !! theirOwners.Keys
    ensures id in CarriedVariables(mine, theirs, ReadOn(mine.args, afresh))
            <==> id in theirs.variables && GoesOn(mine.args, afresh, id)
    ensures id in theirs.variables ==> OwnsVariable(theirs, theirOwners, id)
  {
    hide Lowered, OwnsVariable, ReadOn, GoesOn;
    VariableIsOwned(mine, resolve, owners, id);
    ReadOnTells(mine.args, afresh, id);
    if id in theirs.variables {
      SameKind(mine, theirs, resolve, owners, theirOwners, id);
    }
  }

  /** A node that goes on reads the variable. */
  ghost predicate GoesOn(args: Arguments, afresh: set<Uuid>, id: Uuid) {
    exists port :: port in args && port.node !in afresh && Mentions(args[port], id)
  }

  /** A variable of both trees is carried if a node that goes on reads it, and
      else keeps what it had. */
  lemma VariableIsCarried(mine: Tree, theirs: Tree, afresh: set<Uuid>, resolve: Resolver, owners: Owners,
                          theirOwners: Owners, ports: set<Port>, had: Held, id: Uuid)
    requires Pair(mine, theirs, resolve, owners, theirOwners)
    requires Exchanged(mine, theirs, owners, theirOwners, ports,
                       CarriedVariables(mine, theirs, ReadOn(mine.args, afresh)), had)
    requires id in mine.variables && mine.variables[id].Local?
    ensures id in theirs.variables ==> theirs.variables[id].Local?
    ensures if id in theirs.variables && GoesOn(mine.args, afresh, id)
            then Swapped(mine.variables[id].cell, theirs.variables[id].cell, had)
            else Swapped(mine.variables[id].cell, mine.variables[id].cell, had)
  {
    hide Pair, Partner, Exchanged, ReadOn, GoesOn, CarriedVariables, Swapped;
    ReadTells(mine, theirs, afresh, resolve, owners, theirOwners, id);
    var ids := CarriedVariables(mine, theirs, ReadOn(mine.args, afresh));
    VariablePartners(mine, theirs, owners, theirOwners, ports, ids, id);
    var cell := mine.variables[id].cell;
    if id in ids {
      HoldsIts(mine, theirs, owners, theirOwners, ports, ids, had, cell, theirs.variables[id].cell);
    } else {
      HoldsIts(mine, theirs, owners, theirOwners, ports, ids, had, cell, cell);
    }
  }

  lemma ReadOnTells(args: Arguments, afresh: set<Uuid>, id: Uuid)
    ensures id in ReadOn(args, afresh) <==> GoesOn(args, afresh, id)
  {
    forall port | port in args ensures Mentions(args[port], id) <==> id in VariablesIn(args[port]) {
      MentionsTell(args[port], id);
    }
    if port :| port in args && port.node !in afresh && Mentions(args[port], id) {
      assert id in ReadBy(args, afresh, port);
    }
  }
}
