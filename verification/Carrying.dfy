/**
 State carried from one lowering to the next: the cells of a new tree take
 the values the previous tree's hold, for the nodes that do not start afresh.
 */
module Carrying {
  import opened Integers
  import opened Graphs
  import opened Sweeps

  /** The variables an argument reads, at any depth. */
  function VariablesIn(e: Expression): set<Uuid> {
    match e
    case Variable(id) => {id}
    case Selection(source, _) => VariablesIn(source)
    case Call(ids) => set id | id in ids
    case _ => {}
  }

  /** The cell of such an argument is its own. */
  predicate HasOwnCell(e: Expression) {
    Selected(e).Constant? || Selected(e).Identifier? || Selected(e).Call?
  }

  /** Whether the argument's own cell takes the previous one's value. */
  predicate Carries(args: Arguments, afresh: set<Uuid>, port: Port) {
    port in args && port.node !in afresh && HasOwnCell(args[port])
  }

  /** The variables nodes that go on read. */
  ghost function ReadOn(args: Arguments, afresh: set<Uuid>): set<Uuid> {
    ReadIn(args, afresh, args.Keys)
  }

  datatype Tree = Tree(args: Arguments, cells: Cells, variables: Variables)

  /** A tree lowered: whose cell each argument and variable has. */
  ghost predicate Lowered(t: Tree, resolve: Resolver, owners: Owners) {
    && Placed(t.args, resolve, t.cells, t.variables, owners)
    && BuiltWith(t.args) !! owners.Keys && t.cells.Keys == t.args.Keys
  }

  /** A node whose arguments changed starts afresh. */
  predicate ChangedAreAfresh(args: Arguments, before: Arguments, afresh: set<Uuid>) {
    forall port :: port in args && port.node !in afresh ==> port in before && before[port] == args[port]
  }

  /** The tree's own cell for the argument, and for no other. */
  predicate OwnsFor(t: Tree, owners: Owners, port: Port) {
    && port in t.cells && t.cells[port].Local? && t.cells[port].cell in owners
    && owners[t.cells[port].cell] == OfPort(port)
  }

  predicate OwnsVariable(t: Tree, owners: Owners, id: Uuid) {
    && id in t.variables && t.variables[id].Local? && t.variables[id].cell in owners
    && owners[t.variables[id].cell] == OfVariable(id)
  }

  lemma OwnIsOwned(t: Tree, resolve: Resolver, owners: Owners, port: Port)
    requires Lowered(t, resolve, owners) && port in t.args && HasOwnCell(t.args[port])
    ensures OwnsFor(t, owners, port)
  {
    hide Placed, Ends;
    IsPlaced(t.args, resolve, t.cells, t.variables, owners, port);
    SelectedReads(t.args[port]);
    EndsHere(t.args, port);
  }

  lemma VariableIsOwned(t: Tree, resolve: Resolver, owners: Owners, id: Uuid)
    requires Lowered(t, resolve, owners) && id in t.variables
    ensures t.variables[id].Local? <==> resolve(id).None?
    ensures t.variables[id].Local? ==> OwnsVariable(t, owners, id)
  {
  }

  lemma OneCellEach(t: Tree, resolve: Resolver, owners: Owners, c: LocalCell, other: LocalCell)
    requires Lowered(t, resolve, owners) && c in owners && other in owners && owners[c] == owners[other]
    ensures c == other
  {
  }

  /** Two trees with no cell in common. */
  ghost predicate Pair(mine: Tree, theirs: Tree, resolve: Resolver, owners: Owners, theirOwners: Owners) {
    Lowered(mine, resolve, owners) && Lowered(theirs, resolve, theirOwners) && owners.Keys !! theirOwners.Keys
  }

  /** The cell for the same in the other tree, of those carried. */
  function Partner(mine: Tree, theirs: Tree, owners: Owners, theirOwners: Owners, ports: set<Port>, ids: set<Uuid>,
                   c: LocalCell): LocalCell
  {
    if c in owners then Other(theirs, owners[c], ports, ids, c)
    else if c in theirOwners then Other(mine, theirOwners[c], ports, ids, c)
    else c
  }

  function Other(t: Tree, holder: Holder, ports: set<Port>, ids: set<Uuid>, c: LocalCell): LocalCell {
    match holder
    case OfPort(port) => if port in ports && port in t.cells && t.cells[port].Local? then t.cells[port].cell else c
    case OfVariable(id) => if id in ids && id in t.variables && t.variables[id].Local? then t.variables[id].cell else c
    case _ => c
  }

  /** One more argument carried pairs its two cells, and changes no other pair. */
  lemma OneMorePort(mine: Tree, theirs: Tree, resolve: Resolver, owners: Owners, theirOwners: Owners, ports: set<Port>,
                    ids: set<Uuid>, port: Port, c: LocalCell)
    requires Pair(mine, theirs, resolve, owners, theirOwners) && port !in ports
    requires OwnsFor(mine, owners, port) && OwnsFor(theirs, theirOwners, port)
    ensures Partner(mine, theirs, owners, theirOwners, ports + {port}, ids, c)
            == if c == mine.cells[port].cell then theirs.cells[port].cell
               else if c == theirs.cells[port].cell then mine.cells[port].cell
               else Partner(mine, theirs, owners, theirOwners, ports, ids, c)
    ensures Partner(mine, theirs, owners, theirOwners, ports, ids, mine.cells[port].cell) == mine.cells[port].cell
    ensures Partner(mine, theirs, owners, theirOwners, ports, ids, theirs.cells[port].cell) == theirs.cells[port].cell
  {
    hide Lowered;
    if c in owners && owners[c] == OfPort(port) {
      OneCellEach(mine, resolve, owners, c, mine.cells[port].cell);
    }
    if c in theirOwners && theirOwners[c] == OfPort(port) {
      OneCellEach(theirs, resolve, theirOwners, c, theirs.cells[port].cell);
    }
  }

  lemma OneMoreVariable(mine: Tree, theirs: Tree, resolve: Resolver, owners: Owners, theirOwners: Owners,
                        ports: set<Port>, ids: set<Uuid>, id: Uuid, c: LocalCell)
    requires Pair(mine, theirs, resolve, owners, theirOwners) && id !in ids
    requires OwnsVariable(mine, owners, id) && OwnsVariable(theirs, theirOwners, id)
    ensures Partner(mine, theirs, owners, theirOwners, ports, ids + {id}, c)
            == if c == mine.variables[id].cell then theirs.variables[id].cell
               else if c == theirs.variables[id].cell then mine.variables[id].cell
               else Partner(mine, theirs, owners, theirOwners, ports, ids, c)
    ensures Partner(mine, theirs, owners, theirOwners, ports, ids, mine.variables[id].cell) == mine.variables[id].cell
    ensures Partner(mine, theirs, owners, theirOwners, ports, ids, theirs.variables[id].cell)
            == theirs.variables[id].cell
  {
    hide Lowered;
    if c in owners && owners[c] == OfVariable(id) {
      OneCellEach(mine, resolve, owners, c, mine.variables[id].cell);
    }
    if c in theirOwners && theirOwners[c] == OfVariable(id) {
      OneCellEach(theirs, resolve, theirOwners, c, theirs.variables[id].cell);
    }
  }

  /** Moves what `held` holds into `cell` when both are tree-local, and back. */
  method TakeLocal(cell: VariableCell, held: VariableCell)
    requires cell.Local? && held.Local? ==> cell.cell != held.cell
    modifies if cell.Local? && held.Local? then {cell.cell, held.cell} else {}
    ensures cell.Local? && held.Local? ==>
              cell.cell.value == old(held.cell.value) && held.cell.value == old(cell.cell.value)
  {
    if cell.Local? && held.Local? {
      cell.cell.value, held.cell.value := held.cell.value, cell.cell.value;
    }
  }

  /** The arguments carried, of those met. */
  ghost function CarriedPorts(mine: Tree, afresh: set<Uuid>, met: set<Port>): set<Port> {
    set port | port in met && Carries(mine.args, afresh, port)
  }

  /** The variables carried, of those met. */
  ghost function CarriedVariables(mine: Tree, theirs: Tree, met: set<Uuid>): set<Uuid> {
    set id | id in met && id in mine.variables && id in theirs.variables && mine.variables[id].Local?
  }

  /** The variables an argument that goes on reads. */
  function ReadBy(args: Arguments, afresh: set<Uuid>, port: Port): set<Uuid> {
    if port in args && port.node !in afresh then VariablesIn(args[port]) else {}
  }

  lemma BothAreOwned(mine: Tree, theirs: Tree, afresh: set<Uuid>, resolve: Resolver, owners: Owners,
                     theirOwners: Owners, port: Port)
    requires Pair(mine, theirs, resolve, owners, theirOwners) && ChangedAreAfresh(mine.args, theirs.args, afresh)
    requires Carries(mine.args, afresh, port)
    ensures OwnsFor(mine, owners, port) && OwnsFor(theirs, theirOwners, port)
    ensures mine.cells[port].cell != theirs.cells[port].cell
  {
    hide Lowered;
    OwnIsOwned(mine, resolve, owners, port);
    OwnIsOwned(theirs, resolve, theirOwners, port);
  }

  type Held = map<LocalCell, Option<Value>>

  /** Each cell holds what its partner held. */
  ghost predicate Exchanged(mine: Tree, theirs: Tree, owners: Owners, theirOwners: Owners, ports: set<Port>,
                            ids: set<Uuid>, had: Held)
    reads owners.Keys, theirOwners.Keys
  {
    forall c :: c in owners.Keys + theirOwners.Keys ==>
      HoldsPartners(c, Partner(mine, theirs, owners, theirOwners, ports, ids, c), had)
  }

  ghost predicate HoldsPartners(c: LocalCell, partner: LocalCell, had: Held)
    reads c
  {
    partner in had && c.value == had[partner]
  }

  /** Carries one argument. */
  method CarryPort(mine: Tree, theirs: Tree, resolve: Resolver, ghost owners: Owners, ghost theirOwners: Owners,
                   ghost ports: set<Port>, ghost ids: set<Uuid>, ghost had: Held, port: Port)
    requires Pair(mine, theirs, resolve, owners, theirOwners) && port !in ports
    requires OwnsFor(mine, owners, port) && OwnsFor(theirs, theirOwners, port)
    requires Exchanged(mine, theirs, owners, theirOwners, ports, ids, had)
    modifies owners.Keys, theirOwners.Keys
    ensures Exchanged(mine, theirs, owners, theirOwners, ports + {port}, ids, had)
  {
    hide Lowered, Partner;
    ghost var cell, held := mine.cells[port].cell, theirs.cells[port].cell;
    OneMorePort(mine, theirs, resolve, owners, theirOwners, ports, ids, port, cell);
    assert HoldsPartners(cell, cell, had) && HoldsPartners(held, held, had);
    TakeLocal(mine.cells[port], theirs.cells[port]);
    forall c | c in owners.Keys + theirOwners.Keys
      ensures HoldsPartners(c, Partner(mine, theirs, owners, theirOwners, ports + {port}, ids, c), had)
    {
      OneMorePort(mine, theirs, resolve, owners, theirOwners, ports, ids, port, c);
      assert old(HoldsPartners(c, Partner(mine, theirs, owners, theirOwners, ports, ids, c), had));
    }
  }

  method CarryVariable(mine: Tree, theirs: Tree, resolve: Resolver, ghost owners: Owners, ghost theirOwners: Owners,
                       ghost ports: set<Port>, ghost ids: set<Uuid>, ghost had: Held, id: Uuid)
    requires Pair(mine, theirs, resolve, owners, theirOwners) && id !in ids
    requires OwnsVariable(mine, owners, id) && OwnsVariable(theirs, theirOwners, id)
    requires Exchanged(mine, theirs, owners, theirOwners, ports, ids, had)
    modifies owners.Keys, theirOwners.Keys
    ensures Exchanged(mine, theirs, owners, theirOwners, ports, ids + {id}, had)
  {
    hide Lowered, Partner;
    ghost var cell, held := mine.variables[id].cell, theirs.variables[id].cell;
    OneMoreVariable(mine, theirs, resolve, owners, theirOwners, ports, ids, id, cell);
    assert HoldsPartners(cell, cell, had) && HoldsPartners(held, held, had);
    TakeLocal(mine.variables[id], theirs.variables[id]);
    forall c | c in owners.Keys + theirOwners.Keys
      ensures HoldsPartners(c, Partner(mine, theirs, owners, theirOwners, ports, ids + {id}, c), had)
    {
      OneMoreVariable(mine, theirs, resolve, owners, theirOwners, ports, ids, id, c);
      assert old(HoldsPartners(c, Partner(mine, theirs, owners, theirOwners, ports, ids, c), had));
    }
  }

  lemma NoneCarried(mine: Tree, theirs: Tree, owners: Owners, theirOwners: Owners, had: Held)
    requires had.Keys == owners.Keys + theirOwners.Keys && forall c :: c in had ==> had[c] == c.value
    ensures Exchanged(mine, theirs, owners, theirOwners, {}, {}, had)
  {
  }

  /** The variables the arguments met that go on read. */
  ghost function ReadIn(args: Arguments, afresh: set<Uuid>, met: set<Port>): set<Uuid> {
    set port, id | port in met && id in ReadBy(args, afresh, port) :: id
  }

  lemma OneMoreMet(mine: Tree, afresh: set<Uuid>, met: set<Port>, port: Port)
    requires port in mine.args && port !in met
    ensures port !in CarriedPorts(mine, afresh, met)
    ensures CarriedPorts(mine, afresh, met + {port})
            == if port.node !in afresh && HasOwnCell(mine.args[port]) then CarriedPorts(mine, afresh, met) + {port}
               else CarriedPorts(mine, afresh, met)
    ensures ReadIn(mine.args, afresh, met + {port}) == ReadIn(mine.args, afresh, met) + ReadBy(mine.args, afresh, port)
  {
    var more, other := ReadIn(mine.args, afresh, met + {port}), ReadBy(mine.args, afresh, port);
    forall id | id in ReadIn(mine.args, afresh, met) + other ensures id in more {
      if id in other {
        assert port in met + {port};
      } else {
        var p :| p in met && id in ReadBy(mine.args, afresh, p);
        assert p in met + {port};
      }
    }
  }

  lemma MovedOne<T>(met: set<T>, left: set<T>, x: T)
    requires met !! left && x in left
    ensures (met + {x}) + (left - {x}) == met + left && (met + {x}) !! (left - {x}) && |left - {x}| < |left|
  {
  }

  /**
   The cells of the arguments and variables carried take what the previous
   tree's hold, and give what they held; every other keeps what it holds. A
   variable is carried when a node that goes on reads it.
   */
  method KeepState(mine: Tree, theirs: Tree, afresh: set<Uuid>, resolve: Resolver, ghost owners: Owners,
                   ghost theirOwners: Owners, ghost had: Held)
    requires Pair(mine, theirs, resolve, owners, theirOwners) && ChangedAreAfresh(mine.args, theirs.args, afresh)
    requires had.Keys == owners.Keys + theirOwners.Keys && forall c :: c in had ==> had[c] == c.value
    modifies owners.Keys, theirOwners.Keys
    ensures Exchanged(mine, theirs, owners, theirOwners, CarriedPorts(mine, afresh, mine.args.Keys),
                      CarriedVariables(mine, theirs, ReadOn(mine.args, afresh)), had)
  {
    hide Pair, Partner, Exchanged;
    NoneCarried(mine, theirs, owners, theirOwners, had);
    var read := CarryArguments(mine, theirs, afresh, resolve, owners, theirOwners, had);
    CarryVariables(mine, theirs, resolve, owners, theirOwners, CarriedPorts(mine, afresh, mine.args.Keys), had, read);
  }

  /** Carries the arguments, and gives the variables to carry. */
  method CarryArguments(mine: Tree, theirs: Tree, afresh: set<Uuid>, resolve: Resolver, ghost owners: Owners,
                        ghost theirOwners: Owners, ghost had: Held)
    returns (read: set<Uuid>)
    requires Pair(mine, theirs, resolve, owners, theirOwners) && ChangedAreAfresh(mine.args, theirs.args, afresh)
    requires Exchanged(mine, theirs, owners, theirOwners, {}, {}, had)
    modifies owners.Keys, theirOwners.Keys
    ensures read == ReadOn(mine.args, afresh)
    ensures Exchanged(mine, theirs, owners, theirOwners, CarriedPorts(mine, afresh, mine.args.Keys), {}, had)
  {
    hide Pair, Partner, Exchanged, OwnsFor, Carries;
    var left := mine.args.Keys;
    read := {};
    ghost var met: set<Port> := {};
    assert CarriedPorts(mine, afresh, {}) == {} && ReadIn(mine.args, afresh, {}) == {};
    while left != {}
      invariant met + left == mine.args.Keys && met !! left && read == ReadIn(mine.args, afresh, met)
      invariant Exchanged(mine, theirs, owners, theirOwners, CarriedPorts(mine, afresh, met), {}, had)
      decreases |left|
    {
      var port :| port in left;
      OneMoreMet(mine, afresh, met, port);
      MovedOne(met, left, port);
      if port.node !in afresh {
        read := read + VariablesIn(mine.args[port]);
        if HasOwnCell(mine.args[port]) {
          IsCarried(mine.args, afresh, port);
          BothAreOwned(mine, theirs, afresh, resolve, owners, theirOwners, port);
          CarryPort(mine, theirs, resolve, owners, theirOwners, CarriedPorts(mine, afresh, met), {}, had, port);
        }
      }
      left, met := left - {port}, met + {port};
    }
    assert met == mine.args.Keys;
  }

  lemma IsCarried(args: Arguments, afresh: set<Uuid>, port: Port)
    requires port in args && port.node !in afresh && HasOwnCell(args[port])
    ensures Carries(args, afresh, port)
  {
  }

  /** Carries the variables read, of those both trees have of their own. */
  method CarryVariables(mine: Tree, theirs: Tree, resolve: Resolver, ghost owners: Owners, ghost theirOwners: Owners,
                        ghost ports: set<Port>, ghost had: Held, read: set<Uuid>)
    requires Pair(mine, theirs, resolve, owners, theirOwners)
    requires Exchanged(mine, theirs, owners, theirOwners, ports, {}, had)
    modifies owners.Keys, theirOwners.Keys
    ensures Exchanged(mine, theirs, owners, theirOwners, ports, CarriedVariables(mine, theirs, read), had)
  {
    hide Pair, Partner, Exchanged, OwnsVariable;
    var left := read;
    ghost var met: set<Uuid> := {};
    assert CarriedVariables(mine, theirs, {}) == {};
    while left != {}
      invariant met + left == read && met !! left
      invariant Exchanged(mine, theirs, owners, theirOwners, ports, CarriedVariables(mine, theirs, met), had)
      decreases |left|
    {
      var id :| id in left;
      MovedOne(met, left, id);
      OneMoreRead(mine, theirs, met, id);
      if id in mine.variables && id in theirs.variables {
        SameKind(mine, theirs, resolve, owners, theirOwners, id);
        if mine.variables[id].Local? {
          CarryVariable(mine, theirs, resolve, owners, theirOwners, ports, CarriedVariables(mine, theirs, met), had,
                        id);
        }
      }
      left, met := left - {id}, met + {id};
    }
    assert met == read;
  }

  lemma OneMoreRead(mine: Tree, theirs: Tree, met: set<Uuid>, id: Uuid)
    requires id !in met
    ensures id !in CarriedVariables(mine, theirs, met)
    ensures CarriedVariables(mine, theirs, met + {id})
            == if id in mine.variables && id in theirs.variables && mine.variables[id].Local?
               then CarriedVariables(mine, theirs, met) + {id} else CarriedVariables(mine, theirs, met)
  {
  }

  /** Both trees keep a variable to themselves, or neither does. */
  lemma SameKind(mine: Tree, theirs: Tree, resolve: Resolver, owners: Owners, theirOwners: Owners, id: Uuid)
    requires Pair(mine, theirs, resolve, owners, theirOwners) && id in mine.variables && id in theirs.variables
    ensures mine.variables[id].Local? <==> theirs.variables[id].Local?
    ensures mine.variables[id].Local? ==> OwnsVariable(mine, owners, id) && OwnsVariable(theirs, theirOwners, id)
  {
    hide Lowered;
    VariableIsOwned(mine, resolve, owners, id);
    VariableIsOwned(theirs, resolve, theirOwners, id);
  }
}
