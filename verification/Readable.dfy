/**
 Graphs and diffs written with names for their references, and read back.

 How a text parses as an id, which id a name gives a node, which function a
 text finds, what the functions' parameters are named and how a function is
 written are given as `Lookups`: of them only that an id written reads back as
 itself.
 */
module Readable {
  import opened Integers
  import opened Digraphs
  import opened Graphs
  import opened GraphEdits

  // What the files hold.

  datatype TextPort = TextPort(node: string, port: string)

  datatype TextSource =
    | TextValue(value: Value)
    | TextKey(path: string)
    | TextReads(port: TextPort)
    | TextSelect(source: TextSource, selection: string)

  datatype TextNode =
    TextNode(id: string, function_: string, bind: map<string, TextSource>, children: Option<seq<string>>)

  datatype TextGraph = TextGraph(root: Option<string>, nodes: seq<TextNode>)

  datatype TextBinding = TextBinding(node: string, port: string, source: TextSource)

  datatype TextDiff = TextDiff(remove: seq<string>, set_: seq<TextNode>, unbind: seq<TextPort>, bind: seq<TextBinding>,
                               root: Option<string>)

  // What texts stand for.

  const RETURN := "_ret"

  /** A function's parameters, by id, with their names. */
  type Signature = map<Uuid, string>

  datatype Lookups = Lookups(
    parse: string -> Option<Uuid>,
    written: Uuid -> string,
    hash: string -> Uuid,
    find: string -> Option<Uuid>,
    known: Uuid -> Option<Signature>,
    head: Uuid -> string,
    name: Uuid -> Option<string>)

  /** An id written reads back as itself, as an id and as a function. */
  ghost predicate Sound(l: Lookups) {
    forall id :: l.parse(l.written(id)) == Some(id) && l.find(l.written(id)) == Some(id)
  }

  /** The id of the node of a name, or the id a text is. */
  function NodeId(l: Lookups, text: string): Uuid {
    if l.parse(text).Some? then l.parse(text).value else l.hash(text)
  }

  /** The nodes a reference may name, each with its function, if that resolved. */
  type Scope = map<Uuid, Option<Uuid>>

  function NodeNamed(l: Lookups, scope: Scope, text: string): Option<Uuid> {
    if l.parse(text).Some? then l.parse(text)
    else if NodeId(l, text) in scope then Some(NodeId(l, text)) else None
  }

  /** The parameters of a name. */
  function Parameters(signature: Signature, text: string): set<Uuid> {
    set id | id in signature && signature[id] == text
  }

  /** The port of a name, when the name is of one alone. */
  ghost function PortNamed(l: Lookups, signature: Option<Signature>, text: string): Option<Uuid> {
    if l.parse(text).Some? then l.parse(text)
    else if signature.None? then None
    else
      var named := Parameters(signature.value, text);
      if text == RETURN then if named == {} then Some(RETURN_PORT) else None
      else if |named| == 1 then (var id :| id in named; Some(id)) else None
  }

  function SignatureOf(l: Lookups, function_: Option<Uuid>): Option<Signature> {
    if function_.Some? then l.known(function_.value) else None
  }

  // Writing.

  function NodeName(l: Lookups, id: Uuid): Option<string> {
    var name := l.name(id);
    if name.Some? && l.parse(name.value).None? && NodeId(l, name.value) == id then name else None
  }

  function WrittenReference(l: Lookups, scope: Scope, id: Uuid): string {
    var name := NodeName(l, id);
    if name.Some? && NodeNamed(l, scope, name.value) == Some(id) then name.value else l.written(id)
  }

  function WrittenFunction(l: Lookups, id: Uuid): string {
    if l.known(id).Some? && l.find(l.head(id)) == Some(id) then l.head(id) else l.written(id)
  }

  ghost function WrittenPort(l: Lookups, function_: Option<Uuid>, id: Uuid): string {
    var signature := SignatureOf(l, function_);
    var name := if signature.None? then None
                else if id == RETURN_PORT then Some(RETURN)
                else if id in signature.value then Some(signature.value[id]) else None;
    if name.Some? && PortNamed(l, signature, name.value) == Some(id) then name.value else l.written(id)
  }

  function FunctionOf(scope: Scope, node: Uuid): Option<Uuid> {
    if node in scope then scope[node] else None
  }

  ghost function WrittenSource(l: Lookups, scope: Scope, source: Source): TextSource {
    match source
    case Literal(value) => TextValue(value)
    case Key(path) => TextKey(path)
    case Reads(port) =>
      TextReads(TextPort(WrittenReference(l, scope, port.node),
                         WrittenPort(l, FunctionOf(scope, port.node), port.port)))
    case Select(inner, selection) => TextSelect(WrittenSource(l, scope, inner), selection)
  }

  // What is written reads back.

  lemma ReferenceReadsBack(l: Lookups, scope: Scope, id: Uuid)
    requires Sound(l)
    ensures NodeNamed(l, scope, WrittenReference(l, scope, id)) == Some(id)
  {
  }

  lemma FunctionReadsBack(l: Lookups, id: Uuid)
    requires Sound(l)
    ensures l.find(WrittenFunction(l, id)) == Some(id)
  {
  }

  lemma PortReadsBack(l: Lookups, function_: Option<Uuid>, id: Uuid)
    requires Sound(l)
    ensures PortNamed(l, SignatureOf(l, function_), WrittenPort(l, function_, id)) == Some(id)
  {
  }

  /** No two ports of a node are written alike. */
  lemma PortsDiffer(l: Lookups, function_: Option<Uuid>, a: Uuid, b: Uuid)
    requires Sound(l) && WrittenPort(l, function_, a) == WrittenPort(l, function_, b)
    ensures a == b
  {
    PortReadsBack(l, function_, a);
    PortReadsBack(l, function_, b);
  }

  // Reading.

  ghost function PortRead(l: Lookups, scope: Scope, port: TextPort): Option<Port> {
    var node := NodeNamed(l, scope, port.node);
    if node.None? || (node.value in scope && scope[node.value].None?) then None
    else
      var found := PortNamed(l, SignatureOf(l, FunctionOf(scope, node.value)), port.port);
      if found.Some? then Some(Port(node.value, found.value)) else None
  }

  ghost function SourceRead(l: Lookups, scope: Scope, source: TextSource): Option<Source> {
    match source
    case TextValue(value) => Some(Literal(value))
    case TextKey(path) => Some(Key(path))
    case TextReads(port) =>
      var found := PortRead(l, scope, port);
      if found.Some? then Some(Reads(found.value)) else None
    case TextSelect(inner, selection) =>
      var found := SourceRead(l, scope, inner);
      if found.Some? then Some(Select(found.value, selection)) else None
  }

  /** Every port bound is found, each once, and every source read. */
  ghost predicate BindReads(l: Lookups, scope: Scope, signature: Option<Signature>, bind: map<string, TextSource>) {
    && (forall text :: text in bind ==> PortNamed(l, signature, text).Some? && SourceRead(l, scope, bind[text]).Some?)
    && forall a, b :: a in bind && b in bind && PortNamed(l, signature, a) == PortNamed(l, signature, b) ==> a == b
  }

  ghost function BindRead(l: Lookups, scope: Scope, signature: Option<Signature>, bind: map<string, TextSource>)
    : map<Uuid, Source>
    requires BindReads(l, scope, signature, bind)
  {
    map text | text in bind :: PortNamed(l, signature, text).value := SourceRead(l, scope, bind[text]).value
  }

  ghost predicate ReferencesRead(l: Lookups, scope: Scope, texts: seq<string>) {
    forall i :: 0 <= i < |texts| ==> NodeNamed(l, scope, texts[i]).Some?
  }

  ghost function ReferencesOf(l: Lookups, scope: Scope, texts: seq<string>): (ids: seq<Uuid>)
    requires ReferencesRead(l, scope, texts)
    ensures |ids| == |texts|
  {
    seq(|texts|, i requires 0 <= i < |texts| => NodeNamed(l, scope, texts[i]).value)
  }

  /** A node whose function is found is read whole. */
  ghost predicate NodeReads(l: Lookups, scope: Scope, node: TextNode) {
    && l.find(node.function_).Some?
    && BindReads(l, scope, l.known(l.find(node.function_).value), node.bind)
    && (node.children.Some? ==> ReferencesRead(l, scope, node.children.value))
  }

  ghost function NodeRead(l: Lookups, scope: Scope, node: TextNode): Node
    requires NodeReads(l, scope, node)
  {
    Node(NodeId(l, node.id), l.find(node.function_).value,
         BindRead(l, scope, l.known(l.find(node.function_).value), node.bind),
         if node.children.Some? then Some(ReferencesOf(l, scope, node.children.value)) else None)
  }

  /** The nodes a file lists, over those of `scope`, with what their functions are found to be. */
  function Heads(l: Lookups, scope: Scope, nodes: seq<TextNode>): Scope {
    if nodes == [] then scope
    else
      var last := nodes[|nodes| - 1];
      Heads(l, scope, nodes[..|nodes| - 1])[NodeId(l, last.id) := l.find(last.function_)]
  }

  ghost predicate NodesRead(l: Lookups, scope: Scope, nodes: seq<TextNode>) {
    forall i :: 0 <= i < |nodes| ==> NodeReads(l, scope, nodes[i])
  }

  ghost function NodesOf(l: Lookups, scope: Scope, nodes: seq<TextNode>): (read: seq<Node>)
    requires NodesRead(l, scope, nodes)
    ensures |read| == |nodes|
  {
    seq(|nodes|, i requires 0 <= i < |nodes| => NodeRead(l, scope, nodes[i]))
  }

  ghost predicate RootReads(l: Lookups, scope: Scope, root: Option<string>) {
    root.Some? ==> NodeNamed(l, scope, root.value).Some?
  }

  function RootOf(l: Lookups, scope: Scope, root: Option<string>): Option<Uuid> {
    if root.Some? then NodeNamed(l, scope, root.value) else None
  }

  ghost predicate GraphReads(l: Lookups, file: TextGraph) {
    var scope := Heads(l, map[], file.nodes);
    NodesRead(l, scope, file.nodes) && RootReads(l, scope, file.root)
  }

  ghost function GraphRead(l: Lookups, file: TextGraph): Graph
    requires GraphReads(l, file)
  {
    var scope := Heads(l, map[], file.nodes);
    Graph(RootOf(l, scope, file.root), NodesOf(l, scope, file.nodes))
  }

  // Written whole.

  ghost function WrittenBind(l: Lookups, scope: Scope, function_: Uuid,
                             bind: map<Uuid, Source>): map<string, TextSource>
    requires Sound(l)
  {
    forall a, b | WrittenPort(l, Some(function_), a) == WrittenPort(l, Some(function_), b) ensures a == b {
      PortsDiffer(l, Some(function_), a, b);
    }
    map port | port in bind :: WrittenPort(l, Some(function_), port) := WrittenSource(l, scope, bind[port])
  }

  function WrittenReferences(l: Lookups, scope: Scope, ids: seq<Uuid>): (texts: seq<string>)
    ensures |texts| == |ids|
    ensures forall i :: 0 <= i < |ids| ==> texts[i] == WrittenReference(l, scope, ids[i])
  {
    seq(|ids|, i requires 0 <= i < |ids| => WrittenReference(l, scope, ids[i]))
  }

  ghost function WrittenNode(l: Lookups, scope: Scope, node: Node): TextNode
    requires Sound(l)
  {
    var name := NodeName(l, node.id);
    TextNode(if name.Some? then name.value else l.written(node.id), WrittenFunction(l, node.function_),
             WrittenBind(l, scope, node.function_, node.bind),
             if node.children.Some? then Some(WrittenReferences(l, scope, node.children.value)) else None)
  }

  ghost function WrittenNodes(l: Lookups, scope: Scope, nodes: seq<Node>): (texts: seq<TextNode>)
    requires Sound(l)
    ensures |texts| == |nodes| && forall i :: 0 <= i < |nodes| ==> texts[i] == WrittenNode(l, scope, nodes[i])
  {
    seq(|nodes|, i requires 0 <= i < |nodes| => WrittenNode(l, scope, nodes[i]))
  }

  /** The nodes of a graph over those of `scope`, each with its function. */
  function ScopeOf(scope: Scope, nodes: seq<Node>): Scope {
    if nodes == [] then scope
    else ScopeOf(scope, nodes[..|nodes| - 1])[nodes[|nodes| - 1].id := Some(nodes[|nodes| - 1].function_)]
  }

  ghost function WrittenGraph(l: Lookups, g: Graph): TextGraph
    requires Sound(l)
  {
    var scope := ScopeOf(map[], g.nodes);
    TextGraph(if g.root.Some? then Some(WrittenReference(l, scope, g.root.value)) else None,
              WrittenNodes(l, scope, g.nodes))
  }

  // Written whole reads back whole.

  /** Every node of a scope written has a function. */
  predicate AllFound(scope: Scope) {
    forall id :: id in scope ==> scope[id].Some?
  }

  lemma {:induction false} SourceReadsBack(l: Lookups, scope: Scope, source: Source)
    requires Sound(l) && AllFound(scope)
    ensures SourceRead(l, scope, WrittenSource(l, scope, source)) == Some(source)
  {
    match source
    case Reads(port) =>
      ReferenceReadsBack(l, scope, port.node);
      PortReadsBack(l, FunctionOf(scope, port.node), port.port);
    case Select(inner, _) => SourceReadsBack(l, scope, inner);
    case _ =>
  }

  /** A port's text in what is written of the bindings, and back. */
  lemma PortOfText(l: Lookups, scope: Scope, function_: Uuid, bind: map<Uuid, Source>, text: string)
    returns (port: Uuid)
    requires Sound(l) && AllFound(scope) && text in WrittenBind(l, scope, function_, bind)
    ensures port in bind && text == WrittenPort(l, Some(function_), port)
    ensures PortNamed(l, l.known(function_), text) == Some(port)
    ensures SourceRead(l, scope, WrittenBind(l, scope, function_, bind)[text]) == Some(bind[port])
  {
    hide PortNamed, SourceRead, WrittenSource, WrittenPort;
    port :| port in bind && text == WrittenPort(l, Some(function_), port);
    forall other | WrittenPort(l, Some(function_), other) == text ensures other == port {
      PortsDiffer(l, Some(function_), port, other);
    }
    assert WrittenBind(l, scope, function_, bind)[WrittenPort(l, Some(function_), port)]
           == WrittenSource(l, scope, bind[port]);
    PortReadsBack(l, Some(function_), port);
    SourceReadsBack(l, scope, bind[port]);
  }

  lemma TextOfPort(l: Lookups, scope: Scope, function_: Uuid, bind: map<Uuid, Source>, port: Uuid)
    requires Sound(l) && port in bind
    ensures WrittenPort(l, Some(function_), port) in WrittenBind(l, scope, function_, bind)
  {
    hide WrittenPort, WrittenSource;
  }

  lemma BindReadsBack(l: Lookups, scope: Scope, function_: Uuid, bind: map<Uuid, Source>)
    requires Sound(l) && AllFound(scope)
    ensures BindReads(l, scope, l.known(function_), WrittenBind(l, scope, function_, bind))
    ensures BindRead(l, scope, l.known(function_), WrittenBind(l, scope, function_, bind)) == bind
  {
    hide PortNamed, SourceRead, WrittenBind, WrittenPort;
    var texts := WrittenBind(l, scope, function_, bind);
    forall text | text in texts
      ensures PortNamed(l, l.known(function_), text).Some? && SourceRead(l, scope, texts[text]).Some?
    {
      var port := PortOfText(l, scope, function_, bind, text);
    }
    forall a, b | a in texts && b in texts && PortNamed(l, l.known(function_), a) == PortNamed(l, l.known(function_), b)
      ensures a == b
    {
      var port := PortOfText(l, scope, function_, bind, a);
      var other := PortOfText(l, scope, function_, bind, b);
    }
    BoundAlike(l, scope, function_, bind);
  }

  lemma BoundAlike(l: Lookups, scope: Scope, function_: Uuid, bind: map<Uuid, Source>)
    requires Sound(l) && AllFound(scope)
    requires BindReads(l, scope, l.known(function_), WrittenBind(l, scope, function_, bind))
    ensures BindRead(l, scope, l.known(function_), WrittenBind(l, scope, function_, bind)) == bind
  {
    hide PortNamed, SourceRead, WrittenBind, WrittenPort, BindReads;
    var texts := WrittenBind(l, scope, function_, bind);
    var read := BindRead(l, scope, l.known(function_), texts);
    forall port | port in read ensures port in bind && read[port] == bind[port] {
      var text := TextRead(l, scope, l.known(function_), texts, port);
      var same := PortOfText(l, scope, function_, bind, text);
      ReadAt(l, scope, l.known(function_), texts, text);
    }
    forall port | port in bind ensures port in read {
      TextOfPort(l, scope, function_, bind, port);
      PortReadsBack(l, Some(function_), port);
      ReadAt(l, scope, l.known(function_), texts, WrittenPort(l, Some(function_), port));
    }
  }

  lemma TextRead(l: Lookups, scope: Scope, signature: Option<Signature>, texts: map<string, TextSource>, port: Uuid)
    returns (text: string)
    requires BindReads(l, scope, signature, texts) && port in BindRead(l, scope, signature, texts)
    ensures text in texts && PortNamed(l, signature, text) == Some(port)
  {
    hide PortNamed, SourceRead;
    assert forall t :: t in texts ==> PortNamed(l, signature, t).Some?;
    text :| text in texts && PortNamed(l, signature, text) == Some(port);
  }

  lemma ReadAt(l: Lookups, scope: Scope, signature: Option<Signature>, texts: map<string, TextSource>, text: string)
    requires BindReads(l, scope, signature, texts) && text in texts
    ensures PortNamed(l, signature, text).Some? && SourceRead(l, scope, texts[text]).Some?
    ensures var port := PortNamed(l, signature, text).value;
            port in BindRead(l, scope, signature, texts)
            && BindRead(l, scope, signature, texts)[port] == SourceRead(l, scope, texts[text]).value
  {
    hide PortNamed, SourceRead;
  }

  lemma ReferencesReadBack(l: Lookups, scope: Scope, ids: seq<Uuid>)
    requires Sound(l)
    ensures ReferencesRead(l, scope, WrittenReferences(l, scope, ids))
    ensures ReferencesOf(l, scope, WrittenReferences(l, scope, ids)) == ids
  {
    hide NodeNamed, WrittenReference;
    var texts := WrittenReferences(l, scope, ids);
    forall i | 0 <= i < |ids| ensures NodeNamed(l, scope, texts[i]) == Some(ids[i]) {
      ReferenceReadsBack(l, scope, ids[i]);
    }
  }

  lemma IdReadsBack(l: Lookups, scope: Scope, node: Node)
    requires Sound(l)
    ensures NodeId(l, WrittenNode(l, scope, node).id) == node.id
    ensures l.find(WrittenNode(l, scope, node).function_) == Some(node.function_)
  {
    hide WrittenBind;
    FunctionReadsBack(l, node.function_);
  }

  lemma NodeReadsBack(l: Lookups, scope: Scope, node: Node)
    requires Sound(l) && AllFound(scope)
    ensures NodeReads(l, scope, WrittenNode(l, scope, node))
    ensures NodeRead(l, scope, WrittenNode(l, scope, node)) == node
  {
    hide BindReads, BindRead, WrittenBind, NodeId, WrittenFunction, NodeName, ReferencesRead, ReferencesOf,
         WrittenReferences;
    IdReadsBack(l, scope, node);
    BindReadsBack(l, scope, node.function_, node.bind);
    if node.children.Some? {
      ReferencesReadBack(l, scope, node.children.value);
    }
  }

  lemma {:induction false} HeadsReadBack(l: Lookups, base: Scope, scope: Scope, nodes: seq<Node>)
    requires Sound(l)
    ensures Heads(l, base, WrittenNodes(l, scope, nodes)) == ScopeOf(base, nodes)
    decreases |nodes|
  {
    hide WrittenNode;
    if nodes != [] {
      var init, last := nodes[..|nodes| - 1], nodes[|nodes| - 1];
      assert WrittenNodes(l, scope, nodes)[..|nodes| - 1] == WrittenNodes(l, scope, init);
      HeadsReadBack(l, base, scope, init);
      IdReadsBack(l, scope, last);
    }
  }

  lemma {:induction false} ScopeIsFound(base: Scope, nodes: seq<Node>)
    requires AllFound(base)
    ensures AllFound(ScopeOf(base, nodes))
    decreases |nodes|
  {
    if nodes != [] {
      ScopeIsFound(base, nodes[..|nodes| - 1]);
    }
  }

  lemma NodesReadBack(l: Lookups, scope: Scope, nodes: seq<Node>)
    requires Sound(l) && AllFound(scope)
    ensures NodesRead(l, scope, WrittenNodes(l, scope, nodes))
    ensures NodesOf(l, scope, WrittenNodes(l, scope, nodes)) == nodes
  {
    hide NodeReads, NodeRead, WrittenNode;
    forall i | 0 <= i < |nodes|
      ensures NodeReads(l, scope, WrittenNode(l, scope, nodes[i]))
              && NodeRead(l, scope, WrittenNode(l, scope, nodes[i])) == nodes[i]
    {
      NodeReadsBack(l, scope, nodes[i]);
    }
  }

  /** A graph written by names reads back as it was, without an error. */
  lemma GraphReadsBack(l: Lookups, g: Graph)
    requires Sound(l)
    ensures GraphReads(l, WrittenGraph(l, g)) && GraphRead(l, WrittenGraph(l, g)) == g
  {
    hide NodesRead, NodesOf, WrittenNodes, Heads, ScopeOf, WrittenReference, NodeNamed;
    var scope := ScopeOf(map[], g.nodes);
    HeadsReadBack(l, map[], scope, g.nodes);
    ScopeIsFound(map[], g.nodes);
    NodesReadBack(l, scope, g.nodes);
    if g.root.Some? {
      ReferenceReadsBack(l, scope, g.root.value);
    }
  }

  // Diffs.

  ghost function WrittenTextPort(l: Lookups, scope: Scope, port: Port): TextPort {
    TextPort(WrittenReference(l, scope, port.node), WrittenPort(l, FunctionOf(scope, port.node), port.port))
  }

  ghost function WrittenPorts(l: Lookups, scope: Scope, ports: seq<Port>): (texts: seq<TextPort>)
    ensures |texts| == |ports| && forall i :: 0 <= i < |ports| ==> texts[i] == WrittenTextPort(l, scope, ports[i])
  {
    seq(|ports|, i requires 0 <= i < |ports| => WrittenTextPort(l, scope, ports[i]))
  }

  ghost function WrittenBinding(l: Lookups, scope: Scope, b: Binding): TextBinding {
    var port := WrittenTextPort(l, scope, Port(b.node, b.port));
    TextBinding(port.node, port.port, WrittenSource(l, scope, b.source))
  }

  ghost function WrittenBindings(l: Lookups, scope: Scope, bind: seq<Binding>): (texts: seq<TextBinding>)
    ensures |texts| == |bind| && forall i :: 0 <= i < |bind| ==> texts[i] == WrittenBinding(l, scope, bind[i])
  {
    seq(|bind|, i requires 0 <= i < |bind| => WrittenBinding(l, scope, bind[i]))
  }

  /** A diff written over the graph it applies to: what it removes is named
      there, the rest among what it leaves and what it sets. */
  ghost function WrittenDiff(l: Lookups, diff: GraphDiff, base: Graph): TextDiff
    requires Sound(l)
  {
    var before := ScopeOf(map[], base.nodes);
    var scope := ScopeOf(before - SetOf(diff.remove), diff.set_);
    TextDiff(WrittenReferences(l, before, diff.remove), WrittenNodes(l, scope, diff.set_),
             WrittenPorts(l, scope, diff.unbind), WrittenBindings(l, scope, diff.bind),
             if diff.root.Some? then Some(WrittenReference(l, scope, diff.root.value)) else None)
  }

  ghost predicate PortsRead(l: Lookups, scope: Scope, ports: seq<TextPort>) {
    forall i :: 0 <= i < |ports| ==> PortRead(l, scope, ports[i]).Some?
  }

  ghost function PortsOf(l: Lookups, scope: Scope, ports: seq<TextPort>): (read: seq<Port>)
    requires PortsRead(l, scope, ports)
    ensures |read| == |ports|
  {
    seq(|ports|, i requires 0 <= i < |ports| => PortRead(l, scope, ports[i]).value)
  }

  ghost predicate BindingsRead(l: Lookups, scope: Scope, bind: seq<TextBinding>) {
    forall i :: 0 <= i < |bind| ==>
      PortRead(l, scope, TextPort(bind[i].node, bind[i].port)).Some? && SourceRead(l, scope, bind[i].source).Some?
  }

  ghost function BindingsOf(l: Lookups, scope: Scope, bind: seq<TextBinding>): (read: seq<Binding>)
    requires BindingsRead(l, scope, bind)
    ensures |read| == |bind|
  {
    seq(|bind|, i requires 0 <= i < |bind| =>
      var port := PortRead(l, scope, TextPort(bind[i].node, bind[i].port)).value;
      Binding(port.node, port.port, SourceRead(l, scope, bind[i].source).value))
  }

  /** The nodes the rest of a diff may name, once its removals are read. */
  ghost function DiffScope(l: Lookups, file: TextDiff, base: Graph): Scope
    requires ReferencesRead(l, ScopeOf(map[], base.nodes), file.remove)
  {
    var before := ScopeOf(map[], base.nodes);
    Heads(l, before - SetOf(ReferencesOf(l, before, file.remove)), file.set_)
  }

  ghost predicate DiffReads(l: Lookups, file: TextDiff, base: Graph) {
    && ReferencesRead(l, ScopeOf(map[], base.nodes), file.remove)
    && var scope := DiffScope(l, file, base);
       NodesRead(l, scope, file.set_) && PortsRead(l, scope, file.unbind) && BindingsRead(l, scope, file.bind)
       && RootReads(l, scope, file.root)
  }

  ghost function DiffRead(l: Lookups, file: TextDiff, base: Graph): GraphDiff
    requires DiffReads(l, file, base)
  {
    var scope := DiffScope(l, file, base);
    GraphDiff(ReferencesOf(l, ScopeOf(map[], base.nodes), file.remove), NodesOf(l, scope, file.set_),
              PortsOf(l, scope, file.unbind), BindingsOf(l, scope, file.bind), RootOf(l, scope, file.root))
  }

  lemma TextPortReadsBack(l: Lookups, scope: Scope, port: Port)
    requires Sound(l) && AllFound(scope)
    ensures PortRead(l, scope, WrittenTextPort(l, scope, port)) == Some(port)
  {
    ReferenceReadsBack(l, scope, port.node);
    PortReadsBack(l, FunctionOf(scope, port.node), port.port);
  }

  lemma PortsReadBack(l: Lookups, scope: Scope, ports: seq<Port>)
    requires Sound(l) && AllFound(scope)
    ensures PortsRead(l, scope, WrittenPorts(l, scope, ports))
    ensures PortsOf(l, scope, WrittenPorts(l, scope, ports)) == ports
  {
    hide PortRead, WrittenTextPort;
    forall i | 0 <= i < |ports| ensures PortRead(l, scope, WrittenPorts(l, scope, ports)[i]) == Some(ports[i]) {
      TextPortReadsBack(l, scope, ports[i]);
    }
  }

  lemma BindingsReadBack(l: Lookups, scope: Scope, bind: seq<Binding>)
    requires Sound(l) && AllFound(scope)
    ensures BindingsRead(l, scope, WrittenBindings(l, scope, bind))
    ensures BindingsOf(l, scope, WrittenBindings(l, scope, bind)) == bind
  {
    hide PortRead, WrittenTextPort, SourceRead, WrittenSource;
    forall i | 0 <= i < |bind|
      ensures var text := WrittenBindings(l, scope, bind)[i];
              PortRead(l, scope, TextPort(text.node, text.port)) == Some(Port(bind[i].node, bind[i].port))
              && SourceRead(l, scope, text.source) == Some(bind[i].source)
    {
      TextPortReadsBack(l, scope, Port(bind[i].node, bind[i].port));
      SourceReadsBack(l, scope, bind[i].source);
    }
  }

  lemma FewerAreFound(scope: Scope, gone: set<Uuid>)
    requires AllFound(scope)
    ensures AllFound(scope - gone)
  {
  }

  /** A diff written by names over a graph reads back over it as it was,
      without an error. */
  lemma DiffReadsBack(l: Lookups, diff: GraphDiff, base: Graph)
    requires Sound(l)
    ensures DiffReads(l, WrittenDiff(l, diff, base), base) && DiffRead(l, WrittenDiff(l, diff, base), base) == diff
  {
    hide NodesRead, NodesOf, WrittenNodes, Heads, ScopeOf, WrittenReference, NodeNamed, WrittenReferences,
         ReferencesRead, ReferencesOf, WrittenPorts, PortsRead, PortsOf, WrittenBindings, BindingsRead, BindingsOf,
         AllFound;
    var before := ScopeOf(map[], base.nodes);
    var left := before - SetOf(diff.remove);
    var scope := ScopeOf(left, diff.set_);
    NoneAreFound();
    ScopeIsFound(map[], base.nodes);
    FewerAreFound(before, SetOf(diff.remove));
    ScopeIsFound(left, diff.set_);
    ReferencesReadBack(l, before, diff.remove);
    HeadsReadBack(l, left, scope, diff.set_);
    NodesReadBack(l, scope, diff.set_);
    PortsReadBack(l, scope, diff.unbind);
    BindingsReadBack(l, scope, diff.bind);
    if diff.root.Some? {
      ReferenceReadsBack(l, scope, diff.root.value);
    }
  }

  lemma NoneAreFound()
    ensures AllFound(map[])
  {
  }

  // The resolver.

  /** The port a text names: the one parameter of that name, or the return value. */
  method FindPort(l: Lookups, signature: Option<Signature>, text: string) returns (found: Option<Uuid>)
    ensures found == PortNamed(l, signature, text)
  {
    if l.parse(text).Some? {
      return l.parse(text);
    }
    if signature.None? {
      return None;
    }
    var left, named := signature.value.Keys, {};
    while left != {}
      invariant left <= signature.value.Keys
      invariant named == set id | id in signature.value && id !in left && signature.value[id] == text
      decreases |left|
    {
      var id :| id in left;
      left := left - {id};
      if signature.value[id] == text {
        named := named + {id};
      }
    }
    assert named == Parameters(signature.value, text);
    if text == RETURN {
      return if named == {} then Some(RETURN_PORT) else None;
    }
    if |named| == 1 {
      var id :| id in named;
      OnlyOne(named, id);
      return Some(id);
    }
    found := None;
  }

  lemma OnlyOne(named: set<Uuid>, id: Uuid)
    requires |named| == 1 && id in named
    ensures named == {id}
  {
    assert |named - {id}| == 0;
  }

  /** What a read adds to the errors: nothing, or some. */
  predicate Adds(before: seq<string>, after: seq<string>, some: bool) {
    before <= after && (some <==> |before| < |after|)
  }

  class Resolver {
    const l: Lookups
    /** The nodes references may name. */
    var nodes: Scope
    /** The texts that resolved to nothing. */
    var errors: seq<string>

    constructor (l: Lookups, nodes: Scope)
      ensures this.l == l && this.nodes == nodes && errors == []
    {
      this.l, this.nodes, errors := l, nodes, [];
    }

    method NodeReference(text: string) returns (id: Option<Uuid>)
      modifies this`errors
      ensures id == NodeNamed(l, nodes, text) && Adds(old(errors), errors, id.None?)
    {
      id := NodeNamed(l, nodes, text);
      if id.None? {
        errors := errors + [text];
      }
    }

    /** A port on a node whose function did not resolve is passed over: that
        function is an error of its own. */
    method ReadPort(port: TextPort) returns (found: Option<Port>)
      modifies this`errors
      ensures found == PortRead(l, nodes, port) && old(errors) <= errors
      ensures found.Some? ==> errors == old(errors)
      ensures found.None? && AllFound(nodes) ==> |old(errors)| < |errors|
    {
      var node := NodeReference(port.node);
      if node.None? || (node.value in nodes && nodes[node.value].None?) {
        return None;
      }
      var id := FindPort(l, SignatureOf(l, FunctionOf(nodes, node.value)), port.port);
      if id.None? {
        errors := errors + [port.port];
        return None;
      }
      found := Some(Port(node.value, id.value));
    }

    method ReadSource(source: TextSource) returns (found: Option<Source>)
      modifies this`errors
      ensures found == SourceRead(l, nodes, source) && old(errors) <= errors
      ensures found.Some? ==> errors == old(errors)
      ensures found.None? && AllFound(nodes) ==> |old(errors)| < |errors|
      decreases source
    {
      match source {
        case TextValue(value) => found := Some(Literal(value));
        case TextKey(path) => found := Some(Key(path));
        case TextReads(port) =>
          var read := ReadPort(port);
          found := if read.Some? then Some(Reads(read.value)) else None;
        case TextSelect(inner, selection) =>
          var read := ReadSource(inner);
          found := if read.Some? then Some(Select(read.value, selection)) else None;
      }
    }

    method ReadReferences(texts: seq<string>) returns (ids: seq<Uuid>)
      modifies this`errors
      ensures Adds(old(errors), errors, !ReferencesRead(l, nodes, texts))
      ensures ReferencesRead(l, nodes, texts) ==> ids == ReferencesOf(l, nodes, texts)
    {
      ids := [];
      for i := 0 to |texts|
        invariant Adds(old(errors), errors, !ReferencesRead(l, nodes, texts[..i]))
        invariant ReferencesRead(l, nodes, texts[..i]) ==> ids == ReferencesOf(l, nodes, texts[..i])
      {
        assert texts[..i + 1] == texts[..i] + [texts[i]];
        var id := NodeReference(texts[i]);
        if id.Some? {
          ids := ids + [id.value];
        }
      }
      assert texts[..|texts|] == texts;
    }

    /** Reads a node's bindings, a port bound twice being an error. */
    method ReadBind(signature: Option<Signature>, bind: map<string, TextSource>) returns (read: map<Uuid, Source>)
      modifies this`errors
      ensures old(errors) <= errors
      ensures BindReads(l, nodes, signature, bind) ==>
                errors == old(errors) && read == BindRead(l, nodes, signature, bind)
      ensures !BindReads(l, nodes, signature, bind) && AllFound(nodes) ==> |old(errors)| < |errors|
    {
      hide BindReads, BindRead, PortNamed, SourceRead, AllFound;
      read := map[];
      var left := bind.Keys;
      NoneBound(l, nodes, signature, bind);
      while left != {}
        invariant left <= bind.Keys && old(errors) <= errors
        invariant BindReads(l, nodes, signature, bind - left) ==>
                    errors == old(errors) && read == BindRead(l, nodes, signature, bind - left)
        invariant !BindReads(l, nodes, signature, bind - left) && AllFound(nodes) ==> |old(errors)| < |errors|
        decreases |left|
      {
        var text :| text in left;
        OneMoreBound(l, nodes, signature, bind, left, text);
        var source := ReadSource(bind[text]);
        var port := FindPort(l, signature, text);
        if port.None? {
          errors := errors + [text];
        } else if port.value in read {
          errors := errors + [text];
        } else if source.Some? {
          read := read[port.value := source.value];
        }
        left := left - {text};
      }
      assert bind - {} == bind;
    }

    /** Reads a node whose head is read. */
    method ReadNode(node: TextNode, id: Uuid, function_: Option<Uuid>) returns (read: Node)
      requires id == NodeId(l, node.id) && function_ == l.find(node.function_)
      modifies this`errors
      ensures old(errors) <= errors
      ensures NodeReads(l, nodes, node) ==> errors == old(errors) && read == NodeRead(l, nodes, node)
      ensures !NodeReads(l, nodes, node) && AllFound(nodes) && function_.Some? ==> |old(errors)| < |errors|
    {
      hide BindReads, BindRead, ReferencesRead, ReferencesOf, AllFound;
      var bind: map<Uuid, Source>;
      if function_.Some? {
        bind := ReadBind(l.known(function_.value), node.bind);
      } else {
        ReadSources(node.bind);
        bind := map[];
      }
      var children: Option<seq<Uuid>> := None;
      if node.children.Some? {
        var ids := ReadReferences(node.children.value);
        children := Some(ids);
      }
      read := Node(id, if function_.Some? then function_.value else Uuid(0), bind, children);
    }

    /** Reads the sources of a node whose function did not resolve. */
    method ReadSources(bind: map<string, TextSource>)
      modifies this`errors
      ensures old(errors) <= errors
    {
      var left := bind.Keys;
      while left != {}
        invariant left <= bind.Keys && old(errors) <= errors
        decreases |left|
      {
        var text :| text in left;
        var _ := ReadSource(bind[text]);
        left := left - {text};
      }
    }

    /** Each node's function, added with its id to the nodes references may name. */
    method ReadHeads(listed: seq<TextNode>) returns (heads: seq<(Uuid, Option<Uuid>)>)
      modifies this`errors, this`nodes
      ensures nodes == Heads(l, old(nodes), listed)
      ensures |heads| == |listed|
      ensures forall i :: 0 <= i < |listed| ==> heads[i] == (NodeId(l, listed[i].id), l.find(listed[i].function_))
      ensures Adds(old(errors), errors, exists i :: 0 <= i < |listed| && l.find(listed[i].function_).None?)
    {
      hide Heads;
      heads := [];
      NoHeads(l, nodes, listed);
      for i := 0 to |listed|
        invariant nodes == Heads(l, old(nodes), listed[..i]) && |heads| == i
        invariant forall k :: 0 <= k < i ==> heads[k] == (NodeId(l, listed[k].id), l.find(listed[k].function_))
        invariant Adds(old(errors), errors, exists k :: 0 <= k < i && l.find(listed[k].function_).None?)
      {
        OneMoreHead(l, old(nodes), listed, i);
        var function_ := l.find(listed[i].function_);
        if function_.None? {
          errors := errors + [listed[i].function_];
        }
        heads := heads + [(NodeId(l, listed[i].id), function_)];
        nodes := nodes[NodeId(l, listed[i].id) := function_];
      }
      assert listed[..|listed|] == listed;
    }

    /** Reads the nodes a file lists, their heads first. */
    method ReadNodes(listed: seq<TextNode>) returns (read: seq<Node>)
      requires AllFound(nodes)
      modifies this`errors, this`nodes
      ensures nodes == Heads(l, old(nodes), listed)
      ensures Adds(old(errors), errors, !NodesRead(l, nodes, listed))
      ensures NodesRead(l, nodes, listed) ==> read == NodesOf(l, nodes, listed) && AllFound(nodes)
    {
      hide NodeReads, NodeRead, Heads;
      ghost var before := errors;
      var heads := ReadHeads(listed);
      HeadsAreFound(l, old(nodes), listed);
      ghost var between := errors;
      read := [];
      for i := 0 to |listed|
        invariant nodes == Heads(l, old(nodes), listed) && between <= errors
        invariant NodesRead(l, nodes, listed[..i]) ==> errors == between && read == NodesOf(l, nodes, listed[..i])
        invariant !NodesRead(l, nodes, listed[..i]) && AllFound(nodes) ==> |before| < |errors|
      {
        assert listed[..i + 1] == listed[..i] + [listed[i]];
        var node := ReadNode(listed[i], heads[i].0, heads[i].1);
        read := read + [node];
      }
      assert listed[..|listed|] == listed;
      UnfoundIsUnread(l, nodes, listed);
    }

    method ReadPorts(texts: seq<TextPort>) returns (ports: seq<Port>)
      modifies this`errors
      ensures old(errors) <= errors
      ensures PortsRead(l, nodes, texts) ==> errors == old(errors) && ports == PortsOf(l, nodes, texts)
      ensures !PortsRead(l, nodes, texts) && AllFound(nodes) ==> |old(errors)| < |errors|
    {
      hide PortRead, AllFound;
      ports := [];
      for i := 0 to |texts|
        invariant old(errors) <= errors
        invariant PortsRead(l, nodes, texts[..i]) ==> errors == old(errors) && ports == PortsOf(l, nodes, texts[..i])
        invariant !PortsRead(l, nodes, texts[..i]) && AllFound(nodes) ==> |old(errors)| < |errors|
      {
        assert texts[..i + 1] == texts[..i] + [texts[i]];
        var port := ReadPort(texts[i]);
        if port.Some? {
          ports := ports + [port.value];
        }
      }
      assert texts[..|texts|] == texts;
    }

    method ReadBindings(texts: seq<TextBinding>) returns (bind: seq<Binding>)
      modifies this`errors
      ensures old(errors) <= errors
      ensures BindingsRead(l, nodes, texts) ==> errors == old(errors) && bind == BindingsOf(l, nodes, texts)
      ensures !BindingsRead(l, nodes, texts) && AllFound(nodes) ==> |old(errors)| < |errors|
    {
      hide PortRead, SourceRead, AllFound;
      bind := [];
      for i := 0 to |texts|
        invariant old(errors) <= errors
        invariant BindingsRead(l, nodes, texts[..i]) ==>
                    errors == old(errors) && bind == BindingsOf(l, nodes, texts[..i])
        invariant !BindingsRead(l, nodes, texts[..i]) && AllFound(nodes) ==> |old(errors)| < |errors|
      {
        assert texts[..i + 1] == texts[..i] + [texts[i]];
        var port := ReadPort(TextPort(texts[i].node, texts[i].port));
        var source := ReadSource(texts[i].source);
        if port.Some? && source.Some? {
          bind := bind + [Binding(port.value.node, port.value.port, source.value)];
        }
      }
      assert texts[..|texts|] == texts;
    }
  }

  lemma NoHeads(l: Lookups, scope: Scope, listed: seq<TextNode>)
    ensures Heads(l, scope, listed[..0]) == scope
  {
  }

  lemma OneMoreHead(l: Lookups, scope: Scope, listed: seq<TextNode>, i: nat)
    requires i < |listed|
    ensures Heads(l, scope, listed[..i + 1])
            == Heads(l, scope, listed[..i])[NodeId(l, listed[i].id) := l.find(listed[i].function_)]
  {
    assert listed[..i + 1][..i] == listed[..i];
  }

  lemma UnfoundIsUnread(l: Lookups, scope: Scope, listed: seq<TextNode>)
    ensures (exists i :: 0 <= i < |listed| && l.find(listed[i].function_).None?) ==> !NodesRead(l, scope, listed)
  {
  }

  lemma NoneBound(l: Lookups, scope: Scope, signature: Option<Signature>, bind: map<string, TextSource>)
    ensures BindReads(l, scope, signature, bind - bind.Keys) && BindRead(l, scope, signature, bind - bind.Keys) == map[]
  {
    assert bind - bind.Keys == map[];
  }

  lemma OneMoreBound(l: Lookups, scope: Scope, signature: Option<Signature>, bind: map<string, TextSource>,
                     left: set<string>, text: string)
    requires text in left && left <= bind.Keys
    ensures var port, source := PortNamed(l, signature, text), SourceRead(l, scope, bind[text]);
            && (BindReads(l, scope, signature, bind - (left - {text})) <==>
                  BindReads(l, scope, signature, bind - left) && port.Some? && source.Some?
                  && port.value !in BindRead(l, scope, signature, bind - left))
            && (BindReads(l, scope, signature, bind - (left - {text})) ==>
                  BindRead(l, scope, signature, bind - (left - {text}))
                  == BindRead(l, scope, signature, bind - left)[port.value := source.value])
  {
    hide PortNamed, SourceRead;
    assert bind - (left - {text}) == (bind - left)[text := bind[text]];
    OneMoreText(l, scope, signature, bind - left, text, bind[text]);
  }

  lemma OneMoreText(l: Lookups, scope: Scope, signature: Option<Signature>, bind: map<string, TextSource>, text: string,
                    source: TextSource)
    requires text !in bind
    ensures var port, read, more := PortNamed(l, signature, text), SourceRead(l, scope, source), bind[text := source];
            && (BindReads(l, scope, signature, more) <==>
                  BindReads(l, scope, signature, bind) && port.Some? && read.Some?
                  && port.value !in BindRead(l, scope, signature, bind))
            && (BindReads(l, scope, signature, more) ==>
                  BindRead(l, scope, signature, more) == BindRead(l, scope, signature, bind)[port.value := read.value])
  {
    hide PortNamed, SourceRead, BindRead, BindReads;
    TextApart(l, scope, signature, bind, text, source);
    if BindReads(l, scope, signature, bind) {
      BoundPorts(l, scope, signature, bind, text);
    }
    if BindReads(l, scope, signature, bind[text := source]) {
      BoundMore(l, scope, signature, bind, text, source);
    }
  }

  /** No other text of the bindings names the port. */
  ghost predicate Alone(l: Lookups, signature: Option<Signature>, bind: map<string, TextSource>, text: string) {
    forall other :: other in bind ==> PortNamed(l, signature, other) != PortNamed(l, signature, text)
  }

  lemma TextApart(l: Lookups, scope: Scope, signature: Option<Signature>, bind: map<string, TextSource>, text: string,
                  source: TextSource)
    requires text !in bind
    ensures BindReads(l, scope, signature, bind[text := source]) <==>
              BindReads(l, scope, signature, bind) && PortNamed(l, signature, text).Some?
              && SourceRead(l, scope, source).Some? && Alone(l, signature, bind, text)
  {
    hide PortNamed, SourceRead;
    var more := bind[text := source];
    if BindReads(l, scope, signature, more) {
      assert text in more;
      forall other | other in bind ensures PortNamed(l, signature, other) != PortNamed(l, signature, text) {
        assert other in more;
      }
      forall other | other in bind ensures SourceRead(l, scope, bind[other]).Some? {
        assert other in more;
      }
    }
  }

  lemma BoundPorts(l: Lookups, scope: Scope, signature: Option<Signature>, bind: map<string, TextSource>, text: string)
    requires BindReads(l, scope, signature, bind)
    ensures PortNamed(l, signature, text).Some? ==>
              (PortNamed(l, signature, text).value !in BindRead(l, scope, signature, bind)
               <==> Alone(l, signature, bind, text))
  {
    hide PortNamed, SourceRead;
    if PortNamed(l, signature, text).Some? {
      if PortNamed(l, signature, text).value in BindRead(l, scope, signature, bind) {
        var other := TextRead(l, scope, signature, bind, PortNamed(l, signature, text).value);
      }
    }
  }

  lemma BoundMore(l: Lookups, scope: Scope, signature: Option<Signature>, bind: map<string, TextSource>, text: string,
                  source: TextSource)
    requires text !in bind && BindReads(l, scope, signature, bind[text := source])
    requires BindReads(l, scope, signature, bind) && PortNamed(l, signature, text).Some?
    requires SourceRead(l, scope, source).Some?
    ensures var port, read := PortNamed(l, signature, text).value, SourceRead(l, scope, source).value;
            BindRead(l, scope, signature, bind[text := source]) == BindRead(l, scope, signature, bind)[port := read]
  {
    hide PortNamed, SourceRead, BindReads;
    var more, port := bind[text := source], PortNamed(l, signature, text).value;
    var read, longer := BindRead(l, scope, signature, bind), BindRead(l, scope, signature, more);
    ReadAt(l, scope, signature, more, text);
    forall p | p in longer ensures p in read[port := SourceRead(l, scope, source).value]
                                   && longer[p] == read[port := SourceRead(l, scope, source).value][p]
    {
      var other := TextRead(l, scope, signature, more, p);
      ReadAt(l, scope, signature, more, other);
      if other != text {
        ReadAt(l, scope, signature, bind, other);
        SameTextPort(l, scope, signature, more, other, text);
      }
    }
    forall p | p in read ensures p in longer {
      var other := TextRead(l, scope, signature, bind, p);
      ReadAt(l, scope, signature, more, other);
    }
  }

  lemma SameTextPort(l: Lookups, scope: Scope, signature: Option<Signature>, texts: map<string, TextSource>, a: string,
                     b: string)
    requires BindReads(l, scope, signature, texts) && a in texts && b in texts
    ensures PortNamed(l, signature, a) == PortNamed(l, signature, b) ==> a == b
  {
  }

  /** With every head found, every node references may name has a function. */
  lemma {:induction false} HeadsAreFound(l: Lookups, scope: Scope, listed: seq<TextNode>)
    requires AllFound(scope)
    ensures (forall i :: 0 <= i < |listed| ==> l.find(listed[i].function_).Some?) ==> AllFound(Heads(l, scope, listed))
    decreases |listed|
  {
    if listed != [] {
      HeadsAreFound(l, scope, listed[..|listed| - 1]);
    }
  }

  // Whole files.

  /** The graph a file describes, or an error; it is read exactly when every
      reference resolves. */
  method ResolveGraph(l: Lookups, file: TextGraph) returns (graph: Option<Graph>)
    ensures graph == if GraphReads(l, file) then Some(GraphRead(l, file)) else None
  {
    hide Heads, NodesRead, NodesOf;
    var resolver := new Resolver(l, map[]);
    NoneAreFound();
    var nodes := resolver.ReadNodes(file.nodes);
    var root: Option<Uuid> := None;
    if file.root.Some? {
      root := resolver.NodeReference(file.root.value);
    }
    graph := if resolver.errors == [] then Some(Graph(root, nodes)) else None;
  }

  /** The diff a file describes over the graph it applies to, or an error. */
  method ResolveDiff(l: Lookups, file: TextDiff, base: Graph) returns (diff: Option<GraphDiff>)
    ensures diff == if DiffReads(l, file, base) then Some(DiffRead(l, file, base)) else None
  {
    hide Heads, NodesRead, NodesOf, ReferencesRead, ReferencesOf, PortsRead, PortsOf, BindingsRead, BindingsOf,
         AllFound, ScopeOf;
    NoneAreFound();
    ScopeIsFound(map[], base.nodes);
    var before := ScopeOf(map[], base.nodes);
    var resolver := new Resolver(l, before);
    var remove := resolver.ReadReferences(file.remove);
    FewerAreFound(before, SetOf(remove));
    resolver.nodes := before - SetOf(remove);
    var set_ := resolver.ReadNodes(file.set_);
    var unbind := resolver.ReadPorts(file.unbind);
    var bind := resolver.ReadBindings(file.bind);
    var root: Option<Uuid> := None;
    if file.root.Some? {
      root := resolver.NodeReference(file.root.value);
    }
    diff := if resolver.errors == [] then Some(GraphDiff(remove, set_, unbind, bind, root)) else None;
  }

  /** A graph written by names and read is the graph. */
  method GraphRoundTrip(l: Lookups, g: Graph, file: TextGraph) returns (read: Option<Graph>)
    requires Sound(l) && file == WrittenGraph(l, g)
    ensures read == Some(g)
  {
    GraphReadsBack(l, g);
    read := ResolveGraph(l, file);
  }

  /** A diff written by names over a graph and read over it is the diff. */
  method DiffRoundTrip(l: Lookups, diff: GraphDiff, base: Graph, file: TextDiff) returns (read: Option<GraphDiff>)
    requires Sound(l) && file == WrittenDiff(l, diff, base)
    ensures read == Some(diff)
  {
    DiffReadsBack(l, diff, base);
    read := ResolveDiff(l, file, base);
  }
}
