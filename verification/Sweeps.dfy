/**
 The cells of a tree's arguments: an argument that reads another shares its
 cell, whatever order they are set up in.

 An argument reads another through any selections, and so chains of arguments
 form.  Arguments whose chain goes on to one not set up wait for the next
 sweep; a sweep that sets up none leaves chains that dangle or loop.

 `Sweep` sets up every argument exactly when each chain ends, and
 `SharedByEnd` says which arguments then hold one cell.
 */
module Sweeps {
  import opened Integers
  import opened Graphs

  /** A tree-local cell, which every reader of it holds. */
  class LocalCell {
    var value: Option<Value>

    constructor (value: Option<Value>)
      ensures this.value == value
    {
      this.value := value;
    }
  }

  datatype VariableCell = Local(cell: LocalCell) | Stored(key: string)

  /** An argument. A call is the variables it reads, at any depth. */
  datatype Expression =
    | Constant(value: Value)
    | Identifier(id: Uuid)
    | Given(cell: VariableCell)
    | Variable(variable: Uuid)
    | Argument(port: Port)
    | Selection(source: Expression, path: string)
    | Call(variables: seq<Uuid>)

  /** The argument another one reads, through any selection. */
  function Read(e: Expression): Option<Port> {
    match e
    case Argument(port) => Some(port)
    case Selection(source, _) => Read(source)
    case _ => None
  }

  function Selected(e: Expression): Expression {
    match e
    case Selection(source, _) => Selected(source)
    case _ => e
  }

  lemma {:induction false} SelectedReads(e: Expression)
    ensures !Selected(e).Selection? && Read(Selected(e)) == Read(e)
    ensures Read(e).Some? <==> Selected(e) == Argument(if Read(e).Some? then Read(e).value else Port(Uuid(0), Uuid(0)))
  {
    if e.Selection? {
      SelectedReads(e.source);
    }
  }

  type Arguments = map<Port, Expression>

  // Chains of arguments.

  ghost predicate Link(args: Arguments, path: seq<Port>, i: nat) {
    && i + 1 < |path| && path[i] in args && Read(args[path[i]]) == Some(path[i + 1])
  }

  /** Each argument reads the next. */
  ghost predicate Path(args: Arguments, path: seq<Port>) {
    path != [] && forall i: nat {:trigger Link(args, path, i)} :: i < |path| - 1 ==> Link(args, path, i)
  }

  /** From an argument to one that reads no other. */
  ghost predicate Chain(args: Arguments, port: Port, path: seq<Port>) {
    && Path(args, path) && path[0] == port
    && path[|path| - 1] in args && Read(args[path[|path| - 1]]).None?
  }

  /** The chain from the argument ends. */
  ghost predicate Ends(args: Arguments, port: Port) {
    exists path :: Chain(args, port, path)
  }

  /** The chain from the argument comes to a port that is no argument. */
  ghost predicate Dangles(args: Arguments, port: Port) {
    exists path :: Path(args, path) && path[0] == port && path[|path| - 1] !in args
  }

  /** The chain from the argument comes back to where it was. */
  ghost predicate Loops(args: Arguments, port: Port) {
    exists path, i: nat, j: nat :: Path(args, path) && path[0] == port && i < j < |path| && path[i] == path[j]
  }

  lemma PathOver(args: Arguments, port: Port, path: seq<Port>)
    requires Path(args, path) && port in args && Read(args[port]) == Some(path[0])
    ensures Path(args, [port] + path)
  {
    var longer := [port] + path;
    forall i: nat | i < |longer| - 1 ensures Link(args, longer, i) {
      if i > 0 {
        assert Link(args, path, i - 1);
      }
    }
  }

  lemma LinkReads(args: Arguments, path: seq<Port>, i: nat)
    requires Path(args, path)
    ensures i < |path| - 1 ==> path[i] in args && Read(args[path[i]]) == Some(path[i + 1])
  {
    if i < |path| - 1 {
      assert Link(args, path, i);
    }
  }

  /** There is one way along. */
  lemma {:induction false} PathIsOne(args: Arguments, a: seq<Port>, b: seq<Port>, i: nat)
    requires Path(args, a) && Path(args, b) && a[0] == b[0] && i < |a| && i < |b|
    ensures a[i] == b[i]
    decreases i
  {
    if i > 0 {
      PathIsOne(args, a, b, i - 1);
      assert Link(args, a, i - 1) && Link(args, b, i - 1);
    }
  }

  lemma ChainIsOne(args: Arguments, port: Port, a: seq<Port>, b: seq<Port>)
    requires Chain(args, port, a) && Chain(args, port, b)
    ensures |a| == |b| && a[|a| - 1] == b[|b| - 1]
  {
    if |a| <= |b| {
      PathIsOne(args, a, b, |a| - 1);
      LinkReads(args, b, |a| - 1);
    } else {
      PathIsOne(args, a, b, |b| - 1);
      LinkReads(args, a, |b| - 1);
    }
  }

  /** The argument the chain from one ends at. */
  ghost function End(args: Arguments, port: Port): (end: Port)
    requires Ends(args, port)
    ensures end in args && Read(args[end]).None?
  {
    var path :| Chain(args, port, path);
    path[|path| - 1]
  }

  lemma EndOfChain(args: Arguments, port: Port, path: seq<Port>)
    requires Chain(args, port, path)
    ensures Ends(args, port) && End(args, port) == path[|path| - 1]
  {
    var other :| Chain(args, port, other) && End(args, port) == other[|other| - 1];
    ChainIsOne(args, port, path, other);
  }

  /** One that reads no other is its own end. */
  lemma EndsHere(args: Arguments, port: Port)
    requires port in args && Read(args[port]).None?
    ensures Ends(args, port) && End(args, port) == port
  {
    EndOfChain(args, port, [port]);
  }

  /** One that reads another ends where that one does. */
  lemma EndsThere(args: Arguments, port: Port, next: Port)
    requires port in args && Read(args[port]) == Some(next) && Ends(args, next)
    ensures Ends(args, port) && End(args, port) == End(args, next)
  {
    var path :| Chain(args, next, path);
    PathOver(args, port, path);
    EndOfChain(args, next, path);
    EndOfChain(args, port, [port] + path);
  }

  /** Arguments that read only one another, or no argument, lead to no other. */
  lemma {:induction false} StuckStays(args: Arguments, stuck: set<Port>, path: seq<Port>, i: nat)
    requires forall p :: p in stuck ==> p in args && Read(args[p]).Some?
    requires forall p :: p in stuck && Read(args[p]).value in args ==> Read(args[p]).value in stuck
    requires Path(args, path) && path[0] in stuck && i < |path|
    ensures path[i] in args ==> path[i] in stuck
    decreases i
  {
    if i > 0 {
      StuckStays(args, stuck, path, i - 1);
      assert Link(args, path, i - 1);
    }
  }

  lemma NoneEnds(args: Arguments, stuck: set<Port>, port: Port)
    requires forall p :: p in stuck ==> p in args && Read(args[p]).Some?
    requires forall p :: p in stuck && Read(args[p]).value in args ==> Read(args[p]).value in stuck
    requires port in stuck
    ensures !Ends(args, port)
  {
    forall path ensures !Chain(args, port, path) {
      if Path(args, path) && path[0] == port {
        StuckStays(args, stuck, path, |path| - 1);
      }
    }
  }

  /** How far along the chain goes from an argument. */
  ghost predicate Follows(args: Arguments, port: Port, path: seq<Port>) {
    Path(args, path) && path[0] == port
  }

  lemma Further(args: Arguments, port: Port, path: seq<Port>)
    requires Follows(args, port, path) && path[|path| - 1] in args && Read(args[path[|path| - 1]]).Some?
    ensures Follows(args, port, path + [Read(args[path[|path| - 1]]).value])
  {
    var longer := path + [Read(args[path[|path| - 1]]).value];
    forall i: nat | i < |longer| - 1 ensures Link(args, longer, i) {
      if i < |path| - 1 {
        assert Link(args, path, i);
      }
    }
  }

  /** An argument's chain ends, or dangles, or loops; and only one of them. */
  lemma EndsOrNot(args: Arguments, port: Port)
    ensures Ends(args, port) <==> !(Dangles(args, port) || Loops(args, port))
  {
    if Ends(args, port) {
      var path :| Chain(args, port, path);
      NoDangling(args, port, path);
      NoLooping(args, port, path);
    } else {
      Onwards(args, port, [port]);
    }
  }

  /** No way along a chain goes past its end, or aside. */
  lemma WithinChain(args: Arguments, port: Port, path: seq<Port>, other: seq<Port>)
    requires Chain(args, port, path) && Follows(args, port, other)
    ensures |other| <= |path| && forall i :: 0 <= i < |other| ==> other[i] == path[i]
  {
    if |other| > |path| {
      PathIsOne(args, path, other, |path| - 1);
      LinkReads(args, other, |path| - 1);
    } else {
      forall i | 0 <= i < |other| ensures other[i] == path[i] {
        PathIsOne(args, path, other, i);
      }
    }
  }

  lemma NoDangling(args: Arguments, port: Port, path: seq<Port>)
    requires Chain(args, port, path)
    ensures !Dangles(args, port)
  {
    forall other | Follows(args, port, other) ensures other[|other| - 1] in args {
      WithinChain(args, port, path, other);
      LinkReads(args, path, |other| - 1);
    }
  }

  lemma NoLooping(args: Arguments, port: Port, path: seq<Port>)
    requires Chain(args, port, path)
    ensures !Loops(args, port)
  {
    forall other, i: nat, j: nat | Follows(args, port, other) && i < j < |other| ensures other[i] != other[j] {
      WithinChain(args, port, path, other);
      NoRepeat(args, path, i, j);
    }
  }

  lemma NoRepeat(args: Arguments, path: seq<Port>, i: nat, j: nat)
    requires path != [] && Chain(args, path[0], path) && i < j < |path|
    ensures path[i] != path[j]
  {
    SuffixEnds(args, path, i);
    SuffixEnds(args, path, j);
    if path[i] == path[j] {
      ChainIsOne(args, path[i], path[i..], path[j..]);
    }
  }

  lemma SuffixEnds(args: Arguments, path: seq<Port>, i: nat)
    requires Path(args, path) && i < |path| && path[|path| - 1] in args && Read(args[path[|path| - 1]]).None?
    ensures Chain(args, path[i], path[i..])
  {
    forall k: nat | k < |path[i..]| - 1 ensures Link(args, path[i..], k) {
      assert Link(args, path, i + k);
    }
  }

  function PortsOf(path: seq<Port>): set<Port> {
    set p | p in path
  }

  /** Followed as far as it goes, a chain without an end dangles or loops. */
  lemma {:induction false} Onwards(args: Arguments, port: Port, path: seq<Port>)
    requires Follows(args, port, path) && !Ends(args, port)
    requires forall i, j :: 0 <= i < j < |path| ==> path[i] != path[j]
    ensures Dangles(args, port) || Loops(args, port)
    decreases |args.Keys - PortsOf(path[..|path| - 1])|
  {
    var last := path[|path| - 1];
    if last in args {
      NotAnEnd(args, port, path);
      Further(args, port, path);
      var next := Read(args[last]).value;
      var longer := path + [next];
      if next in path {
        var i :| 0 <= i < |path| && path[i] == next;
        assert longer[i] == longer[|path|];
      } else {
        assert longer[..|longer| - 1] == path[..|path| - 1] + [last];
        Fewer(args.Keys, path[..|path| - 1], last);
        Onwards(args, port, longer);
      }
    }
  }

  lemma NotAnEnd(args: Arguments, port: Port, path: seq<Port>)
    requires Follows(args, port, path) && !Ends(args, port) && path[|path| - 1] in args
    ensures Read(args[path[|path| - 1]]).Some?
  {
    if Read(args[path[|path| - 1]]).None? {
      EndOfChain(args, port, path);
    }
  }

  lemma Fewer(all: set<Port>, seen: seq<Port>, last: Port)
    requires last in all && last !in seen
    ensures |all - PortsOf(seen + [last])| < |all - PortsOf(seen)|
  {
    assert all - PortsOf(seen + [last]) == all - PortsOf(seen) - {last};
    assert last in all - PortsOf(seen);
  }

  // The cells.

  /** What an argument's cell is: one of its own, a variable's, a store slot,
      or one it was built with. */
  datatype Holder = OfPort(port: Port) | OfVariable(variable: Uuid) | InStore(key: string) | Built(cell: LocalCell)

  type Cells = map<Port, VariableCell>
  type Variables = map<Uuid, VariableCell>
  /** The keys the names of variables stand for in the store, if any. */
  type Resolver = Uuid -> Option<string>

  /** What the cell of an argument that reads no other is. */
  function HolderOf(resolve: Resolver, port: Port, e: Expression): Holder {
    match Selected(e)
    case Variable(id) => if resolve(id).Some? then InStore(resolve(id).value) else OfVariable(id)
    case Given(Stored(key)) => InStore(key)
    case Given(Local(cell)) => Built(cell)
    case _ => OfPort(port)
  }

  /** What an argument's own cell starts with. */
  function Starts(e: Expression): Option<Value> {
    match Selected(e)
    case Constant(value) => Some(value)
    case Identifier(id) => Some(Data(id.bits))
    case _ => None
  }

  /** Which cells were made, each for whom. */
  type Owners = map<LocalCell, Holder>

  /** The cell is the holder's. */
  ghost predicate IsFor(owners: Owners, cell: VariableCell, holder: Holder) {
    match cell
    case Stored(key) => holder == InStore(key)
    case Local(local) => if local in owners then holder == owners[local] else holder == Built(local)
  }

  ghost predicate PlacedAt(args: Arguments, resolve: Resolver, cells: Cells, owners: Owners, port: Port)
    requires port in cells
  {
    && port in args && Ends(args, port)
    && IsFor(owners, cells[port], HolderOf(resolve, End(args, port), args[End(args, port)]))
  }

  /** Every argument set up has the cell its chain ends at, every variable met
      the one it stands for, and every cell made is for one of them alone. */
  ghost predicate Placed(args: Arguments, resolve: Resolver, cells: Cells, variables: Variables, owners: Owners) {
    && (forall port :: port in cells ==> PlacedAt(args, resolve, cells, owners, port))
    && (forall id :: id in variables ==>
          IsFor(owners, variables[id], if resolve(id).Some? then InStore(resolve(id).value) else OfVariable(id)))
    && (forall c, other :: c in owners && other in owners && owners[c] == owners[other] ==> c == other)
    && (forall c :: c in owners ==> match owners[c]
          case OfPort(port) => port in cells
          case OfVariable(id) => id in variables
          case _ => false)
  }

  /** What an argument was built with is none of the cells made. */
  ghost predicate BuiltApart(e: Expression, owners: Owners) {
    Selected(e).Given? && Selected(e).cell.Local? ==> Selected(e).cell.cell !in owners
  }

  /** The cells made hold what they start with. */
  ghost predicate Started(args: Arguments, owners: Owners)
    reads owners.Keys
  {
    forall c :: c in owners ==> match owners[c]
      case OfPort(port) => port in args && c.value == Starts(args[port])
      case _ => c.value == None
  }

  /** The variable's cell, made at its first reference. */
  method VariableCellOf(args: Arguments, resolve: Resolver, id: Uuid, ghost cells: Cells, variables: Variables,
                        ghost owners: Owners)
    returns (cell: VariableCell, met: Variables, ghost made: Owners)
    requires Placed(args, resolve, cells, variables, owners) && Started(args, owners)
    ensures Placed(args, resolve, cells, met, made) && Started(args, made)
    ensures fresh(made.Keys - owners.Keys) && owners.Keys <= made.Keys && met.Keys == variables.Keys + {id}
    ensures forall c :: c in owners ==> made[c] == owners[c]
    ensures IsFor(made, cell, if resolve(id).Some? then InStore(resolve(id).value) else OfVariable(id))
  {
    made := owners;
    if id in variables {
      return variables[id], variables, made;
    }
    var key := resolve(id);
    if key.Some? {
      cell := Stored(key.value);
    } else {
      var local := new LocalCell(None);
      cell, made := Local(local), owners[local := OfVariable(id)];
    }
    met := variables[id := cell];
    MadeOne(args, resolve, cells, variables, owners, cell, OfVariable(id), made);
  }

  /** One more cell, for a holder that had none, displaces none. */
  lemma MadeOne(args: Arguments, resolve: Resolver, cells: Cells, variables: Variables, owners: Owners,
                cell: VariableCell, holder: Holder, made: Owners)
    requires Placed(args, resolve, cells, variables, owners)
    requires made == owners || (cell.Local? && cell.cell !in owners && made == owners[cell.cell := holder])
    requires forall port :: port in cells && cells[port].Local? ==> cells[port].cell in owners || cell != cells[port]
    ensures forall port :: port in cells ==> PlacedAt(args, resolve, cells, made, port)
  {
  }

  /** Gives every variable a call reads its cell. */
  method BindVariables(args: Arguments, resolve: Resolver, ids: seq<Uuid>, ghost cells: Cells, variables: Variables,
                       ghost owners: Owners)
    returns (met: Variables, ghost made: Owners)
    requires Placed(args, resolve, cells, variables, owners) && Started(args, owners)
    ensures Placed(args, resolve, cells, met, made) && Started(args, made)
    ensures fresh(made.Keys - owners.Keys) && owners.Keys <= made.Keys && variables.Keys <= met.Keys
    ensures forall id :: id in ids ==> id in met
    ensures forall c :: c in owners ==> made[c] == owners[c]
  {
    met, made := variables, owners;
    for i := 0 to |ids|
      invariant Placed(args, resolve, cells, met, made) && Started(args, made)
      invariant fresh(made.Keys - owners.Keys) && owners.Keys <= made.Keys && variables.Keys <= met.Keys
      invariant forall id :: id in ids[..i] ==> id in met
      invariant forall c :: c in owners ==> made[c] == owners[c]
    {
      var cell;
      cell, met, made := VariableCellOf(args, resolve, ids[i], cells, met, made);
    }
  }

  /** One more argument set up, with a cell of its own or one there was. */
  lemma PlacedOneMore(args: Arguments, resolve: Resolver, cells: Cells, variables: Variables, owners: Owners,
                      port: Port, cell: VariableCell, made: Owners)
    requires Placed(args, resolve, cells, variables, owners) && port in args && port !in cells && Ends(args, port)
    requires made == owners
             || (cell.Local? && cell.cell !in owners && made == owners[cell.cell := OfPort(port)]
                 && (forall p :: p in cells ==> cells[p] != cell)
                 && (forall id :: id in variables ==> variables[id] != cell))
    requires IsFor(made, cell, HolderOf(resolve, End(args, port), args[End(args, port)]))
    ensures Placed(args, resolve, cells[port := cell], variables, made)
  {
    hide Ends, End, HolderOf;
    var set_ := cells[port := cell];
    forall p | p in set_ ensures PlacedAt(args, resolve, set_, made, p) {
      if p != port {
        assert PlacedAt(args, resolve, cells, owners, p);
      }
    }
  }

  /** An argument that reads no other is its own cell's holder, or its
      variable's, or what it was built with is. */
  lemma HoldsItself(args: Arguments, resolve: Resolver, port: Port)
    requires port in args && Read(args[port]).None?
    ensures Ends(args, port)
    ensures HolderOf(resolve, End(args, port), args[End(args, port)]) == HolderOf(resolve, port, args[port])
  {
    EndsHere(args, port);
  }

  lemma HoldsTheRead(args: Arguments, resolve: Resolver, cells: Cells, variables: Variables, owners: Owners, port: Port,
                     other: Port)
    requires Placed(args, resolve, cells, variables, owners) && other in cells
    requires port in args && Read(args[port]) == Some(other)
    ensures Ends(args, port)
    ensures IsFor(owners, cells[other], HolderOf(resolve, End(args, port), args[End(args, port)]))
  {
    assert PlacedAt(args, resolve, cells, owners, other);
    EndsThere(args, port, other);
  }

  /** Gives an argument its cell: the one it reads, when that is set up. */
  method SetUp(args: Arguments, resolve: Resolver, port: Port, e: Expression, cells: Cells, variables: Variables,
               ghost owners: Owners)
    returns (ok: bool, set_: Cells, met: Variables, ghost made: Owners)
    requires Placed(args, resolve, cells, variables, owners) && Started(args, owners)
    requires port in args && port !in cells && Selected(e) == Selected(args[port]) && Read(e) == Read(args[port])
    requires BuiltApart(e, owners)
    ensures ok <==> (Read(e).Some? ==> Read(e).value in cells)
    ensures ok ==> set_.Keys == cells.Keys + {port} && (forall p :: p in cells ==> set_[p] == cells[p])
    ensures ok ==> Placed(args, resolve, set_, met, made) && Started(args, made)
    ensures ok ==> fresh(made.Keys - owners.Keys) && owners.Keys <= made.Keys
    decreases e
  {
    hide Ends, End, Placed, Started;
    ok, set_, met, made := true, cells, variables, owners;
    ghost var before := owners;
    var cell: VariableCell;
    match e {
      case Selection(source, _) =>
        ok, set_, met, made := SetUp(args, resolve, port, source, cells, variables, owners);
        return;
      case Argument(other) =>
        if other !in cells {
          ok := false;
          return;
        }
        cell := cells[other];
        HoldsTheRead(args, resolve, cells, variables, owners, port, other);
      case Variable(id) =>
        cell, met, made := VariableCellOf(args, resolve, id, cells, variables, owners);
        before := made;
        HoldsItself(args, resolve, port);
      case Given(given) =>
        cell := given;
        HoldsItself(args, resolve, port);
      case Constant(_) =>
        cell, made := OwnCell(args, port, owners);
        HoldsItself(args, resolve, port);
      case Identifier(_) =>
        cell, made := OwnCell(args, port, owners);
        HoldsItself(args, resolve, port);
      case Call(ids) =>
        met, before := BindVariables(args, resolve, ids, cells, variables, owners);
        cell, made := OwnCell(args, port, before);
        HoldsItself(args, resolve, port);
    }
    set_ := cells[port := cell];
    PlacedOneMore(args, resolve, cells, met, before, port, cell, made);
  }

  /** A cell of the argument's own. */
  method OwnCell(args: Arguments, port: Port, ghost owners: Owners) returns (cell: VariableCell, ghost made: Owners)
    requires port in args && Started(args, owners)
    ensures Started(args, made) && cell.Local? && fresh(cell.cell) && made == owners[cell.cell := OfPort(port)]
  {
    var local := new LocalCell(Starts(args[port]));
    cell, made := Local(local), owners[local := OfPort(port)];
  }

  type Pending = seq<(Port, Expression)>

  /** The arguments not set up, each once. */
  ghost predicate Awaits(args: Arguments, cells: Cells, pending: Pending) {
    && (forall i :: 0 <= i < |pending| ==>
          pending[i].0 in args && pending[i].0 !in cells && pending[i].1 == args[pending[i].0])
    && (forall i, j :: 0 <= i < j < |pending| ==> pending[i].0 != pending[j].0)
    && (forall port :: port in args && port !in cells ==> Awaited(pending, port))
  }

  ghost predicate Awaited(pending: Pending, port: Port) {
    exists i :: 0 <= i < |pending| && pending[i].0 == port
  }

  /** What is left of one sweep, and those it found unresolved so far. */
  ghost predicate Between(args: Arguments, cells: Cells, unresolved: Pending, rest: Pending) {
    Awaits(args, cells, unresolved + rest)
  }

  lemma OneResolved(args: Arguments, cells: Cells, unresolved: Pending, rest: Pending, set_: Cells)
    requires Between(args, cells, unresolved, rest) && rest != [] && set_.Keys == cells.Keys + {rest[0].0}
    ensures Between(args, set_, unresolved, rest[1..])
  {
    var all, fewer := unresolved + rest, unresolved + rest[1..];
    forall i, j | 0 <= i < j < |fewer| ensures fewer[i].0 != fewer[j].0 {
      assert fewer[i] == all[if i < |unresolved| then i else i + 1];
      assert fewer[j] == all[if j < |unresolved| then j else j + 1];
    }
    forall i | 0 <= i < |fewer|
      ensures fewer[i].0 in args && fewer[i].0 !in set_ && fewer[i].1 == args[fewer[i].0]
    {
      assert fewer[i] == all[if i < |unresolved| then i else i + 1];
      assert all[|unresolved|] == rest[0];
    }
    forall port | port in args && port !in set_ ensures Awaited(fewer, port) {
      assert Awaited(all, port);
      var i :| 0 <= i < |all| && all[i].0 == port;
      assert all[|unresolved|] == rest[0];
      assert fewer[if i < |unresolved| then i else i - 1].0 == port;
    }
  }

  lemma OneUnresolved(args: Arguments, cells: Cells, unresolved: Pending, rest: Pending)
    requires Between(args, cells, unresolved, rest) && rest != []
    ensures Between(args, cells, unresolved + [rest[0]], rest[1..])
  {
    assert unresolved + rest == (unresolved + [rest[0]]) + rest[1..];
  }

  /** A sweep that sets up none leaves arguments whose chains do not end. */
  lemma NoneResolved(args: Arguments, cells: Cells, pending: Pending)
    requires Awaits(args, cells, pending) && AllWait(pending, cells)
    ensures forall i :: 0 <= i < |pending| ==> !Ends(args, pending[i].0)
  {
    var stuck := set i | 0 <= i < |pending| :: pending[i].0;
    forall p | p in stuck ensures p in args && Read(args[p]).Some? {
      var i :| 0 <= i < |pending| && pending[i].0 == p;
    }
    forall p | p in stuck && Read(args[p]).value in args ensures Read(args[p]).value in stuck {
      var i :| 0 <= i < |pending| && pending[i].0 == p;
      assert Awaited(pending, Read(args[p]).value);
    }
    forall i | 0 <= i < |pending| ensures !Ends(args, pending[i].0) {
      NoneEnds(args, stuck, pending[i].0);
    }
  }

  /** The cells the arguments were built with. */
  ghost function BuiltWith(args: Arguments): set<LocalCell> {
    set port | port in args && Selected(args[port]).Given? && Selected(args[port]).cell.Local? ::
      Selected(args[port]).cell.cell
  }

  /** Each reads an argument not set up. */
  ghost predicate AllWait(pending: Pending, cells: Cells) {
    forall i :: 0 <= i < |pending| ==> Read(pending[i].1).Some? && Read(pending[i].1).value !in cells
  }

  /** What one sweep has done so far, since it began with `cells`. */
  ghost predicate Swept(args: Arguments, cells: Cells, set_: Cells, pending: Pending, unresolved: Pending, i: nat) {
    && i <= |pending| && |unresolved| <= i && Between(args, set_, unresolved, pending[i..])
    && (|unresolved| == i ==> unresolved == pending[..i] && set_ == cells && AllWait(pending[..i], cells))
  }

  lemma SweptUnresolved(args: Arguments, cells: Cells, set_: Cells, pending: Pending, unresolved: Pending, i: nat)
    requires Swept(args, cells, set_, pending, unresolved, i) && i < |pending|
    requires Read(pending[i].1).Some? && Read(pending[i].1).value !in set_
    ensures Swept(args, cells, set_, pending, unresolved + [pending[i]], i + 1)
  {
    assert pending[i..][1..] == pending[i + 1..] && pending[..i + 1] == pending[..i] + [pending[i]];
    OneUnresolved(args, set_, unresolved, pending[i..]);
  }

  lemma SweptOn(args: Arguments, cells: Cells, set_: Cells, more: Cells, pending: Pending, unresolved: Pending, i: nat)
    requires Swept(args, cells, set_, pending, unresolved, i) && i < |pending|
    requires more.Keys == set_.Keys + {pending[i].0}
    ensures Swept(args, cells, more, pending, unresolved, i + 1)
  {
    assert pending[i..][1..] == pending[i + 1..];
    OneResolved(args, set_, unresolved, pending[i..], more);
  }

  lemma NextIsPending(args: Arguments, cells: Cells, set_: Cells, pending: Pending, unresolved: Pending, i: nat)
    requires Swept(args, cells, set_, pending, unresolved, i) && i < |pending|
    ensures pending[i].0 in args && pending[i].0 !in set_ && pending[i].1 == args[pending[i].0]
  {
    var all := unresolved + pending[i..];
    assert all[|unresolved|] == pending[i];
  }

  /** One sweep over the pending arguments: sets up those whose source is. */
  method SweepOnce(args: Arguments, resolve: Resolver, pending: Pending, cells: Cells, variables: Variables,
                   ghost owners: Owners)
    returns (unresolved: Pending, set_: Cells, met: Variables, ghost made: Owners)
    requires Placed(args, resolve, cells, variables, owners) && Started(args, owners) && Awaits(args, cells, pending)
    requires BuiltWith(args) !! owners.Keys
    ensures Placed(args, resolve, set_, met, made) && Started(args, made) && Awaits(args, set_, unresolved)
    ensures BuiltWith(args) !! made.Keys && fresh(made.Keys - owners.Keys)
    ensures |unresolved| <= |pending| && (|unresolved| == |pending| ==> AllWait(pending, cells))
  {
    hide Placed, Started, Swept, Awaits;
    unresolved, set_, met, made := [], cells, variables, owners;
    ghost var built := BuiltWith(args);
    SweptNone(args, cells, pending);
    for i := 0 to |pending|
      invariant Placed(args, resolve, set_, met, made) && Started(args, made)
      invariant built !! made.Keys && fresh(made.Keys - owners.Keys)
      invariant Swept(args, cells, set_, pending, unresolved, i)
    {
      var (port, e) := pending[i];
      NextIsPending(args, cells, set_, pending, unresolved, i);
      if Read(e).Some? && Read(e).value !in set_ {
        SweptUnresolved(args, cells, set_, pending, unresolved, i);
        unresolved := unresolved + [(port, e)];
      } else {
        assert forall c :: c in built ==> allocated(c);
        var ok, more, known, owned := SetUp(args, resolve, port, e, set_, met, made);
        assert forall c :: c in owned && c !in made ==> c !in built;
        SweptOn(args, cells, set_, more, pending, unresolved, i);
        set_, met, made := more, known, owned;
      }
    }
    SweptAll(args, cells, set_, pending, unresolved);
  }

  lemma SweptNone(args: Arguments, cells: Cells, pending: Pending)
    requires Awaits(args, cells, pending)
    ensures Swept(args, cells, cells, pending, [], 0)
  {
    assert [] + pending[0..] == pending;
  }

  lemma SweptAll(args: Arguments, cells: Cells, set_: Cells, pending: Pending, unresolved: Pending)
    requires Swept(args, cells, set_, pending, unresolved, |pending|)
    ensures Awaits(args, set_, unresolved) && |unresolved| <= |pending|
    ensures |unresolved| == |pending| ==> AllWait(pending, cells)
  {
    assert unresolved + pending[|pending|..] == unresolved;
    assert pending[..|pending|] == pending;
  }

  /** The argument has the very cell the chain of reads from it ends at. */
  ghost predicate HasEndsCell(args: Arguments, cells: Cells, port: Port) {
    && port in args && Ends(args, port) && port in cells && End(args, port) in cells
    && cells[port] == cells[End(args, port)]
  }

  /**
   Gives every argument its cell, sweeping over those left until none is, in
   the order they are listed. It ends; it refuses exactly when some chain of
   reads does not come to an end; and otherwise each argument has the cell its
   chain ends at.
   */
  method Sweep(args: Arguments, resolve: Resolver, listed: Pending)
    returns (ok: bool, cells: Cells, variables: Variables, ghost owners: Owners)
    requires Awaits(args, map[], listed)
    ensures ok <==> forall port :: port in args ==> Ends(args, port)
    ensures ok ==> cells.Keys == args.Keys && Placed(args, resolve, cells, variables, owners)
    ensures ok ==> Started(args, owners) && BuiltWith(args) !! owners.Keys && fresh(owners.Keys)
    ensures ok ==> forall port :: port in args ==> HasEndsCell(args, cells, port)
  {
    hide Placed, Started, Awaits, Ends, AllWait, BuiltWith, End;
    ok, cells, variables, owners := true, map[], map[], map[];
    var pending := listed;
    NoneMade(args, resolve);
    while pending != []
      invariant Placed(args, resolve, cells, variables, owners) && Started(args, owners)
      invariant BuiltWith(args) !! owners.Keys && fresh(owners.Keys) && Awaits(args, cells, pending)
      decreases |pending|
    {
      ghost var before := cells;
      var unresolved;
      unresolved, cells, variables, owners := SweepOnce(args, resolve, pending, cells, variables, owners);
      if |unresolved| == |pending| {
        NoneResolved(args, before, pending);
        FirstIsListed(args, before, pending);
        ok := false;
        return;
      }
      pending := unresolved;
    }
    AllSetUp(args, resolve, cells, variables, owners);
    AllShare(args, resolve, cells, variables, owners);
  }

  lemma NoneMade(args: Arguments, resolve: Resolver)
    ensures Placed(args, resolve, map[], map[], map[]) && Started(args, map[])
  {
  }

  lemma FirstIsListed(args: Arguments, cells: Cells, pending: Pending)
    requires Awaits(args, cells, pending) && pending != []
    ensures pending[0].0 in args
  {
  }

  lemma NoneAwaits(args: Arguments, cells: Cells)
    requires Awaits(args, cells, [])
    ensures args.Keys <= cells.Keys
  {
    hide Ends;
    assert forall port :: !Awaited([], port);
  }

  lemma AllSetUp(args: Arguments, resolve: Resolver, cells: Cells, variables: Variables, owners: Owners)
    requires Placed(args, resolve, cells, variables, owners) && Awaits(args, cells, [])
    ensures cells.Keys == args.Keys && forall port :: port in args ==> Ends(args, port)
  {
    hide Ends, Awaits;
    NoneAwaits(args, cells);
    forall port | port in cells ensures port in args && Ends(args, port) {
      assert PlacedAt(args, resolve, cells, owners, port);
    }
  }

  /** Two arguments share a cell exactly when their chains end at one holder:
      which share, the order they were set up in has no part in. */
  lemma SharedByEnd(args: Arguments, resolve: Resolver, cells: Cells, variables: Variables, owners: Owners, a: Port,
                    b: Port)
    requires Placed(args, resolve, cells, variables, owners) && BuiltWith(args) !! owners.Keys && a in cells
    requires b in cells
    ensures Ends(args, a) && Ends(args, b)
    ensures cells[a] == cells[b]
            <==> HolderOf(resolve, End(args, a), args[End(args, a)])
                 == HolderOf(resolve, End(args, b), args[End(args, b)])
  {
    assert PlacedAt(args, resolve, cells, owners, a) && PlacedAt(args, resolve, cells, owners, b);
  }

  lemma IsPlaced(args: Arguments, resolve: Resolver, cells: Cells, variables: Variables, owners: Owners, port: Port)
    requires Placed(args, resolve, cells, variables, owners) && port in cells
    ensures PlacedAt(args, resolve, cells, owners, port)
    ensures forall c :: c in owners ==> owners[c].OfPort? || owners[c].OfVariable?
  {
    hide Ends, IsFor, HolderOf;
    assert PlacedAt(args, resolve, cells, owners, port);
  }

  lemma SharesItsEnd(args: Arguments, resolve: Resolver, cells: Cells, variables: Variables, owners: Owners, port: Port)
    requires Placed(args, resolve, cells, variables, owners) && BuiltWith(args) !! owners.Keys
    requires cells.Keys == args.Keys && port in args
    ensures Ends(args, port) && cells[port] == cells[End(args, port)]
  {
    hide Ends, Placed, HolderOf, BuiltWith;
    IsPlaced(args, resolve, cells, variables, owners, port);
    EndsHere(args, End(args, port));
    SharedByEnd(args, resolve, cells, variables, owners, port, End(args, port));
  }

  lemma AllShare(args: Arguments, resolve: Resolver, cells: Cells, variables: Variables, owners: Owners)
    requires Placed(args, resolve, cells, variables, owners) && BuiltWith(args) !! owners.Keys
    requires cells.Keys == args.Keys
    ensures forall port :: port in args ==> HasEndsCell(args, cells, port)
  {
    hide Ends, Placed, BuiltWith;
    forall port | port in args ensures HasEndsCell(args, cells, port) {
      SharesItsEnd(args, resolve, cells, variables, owners, port);
    }
  }
}
