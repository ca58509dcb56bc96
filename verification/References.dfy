/** What a file of names describes, told reference by reference. */
module References {
  import opened Integers
  import opened Digraphs
  import opened Graphs
  import opened GraphEdits
  import opened Readable

  /** The id a text is, or else the one its name is of. */
  predicate HasId(l: Lookups, text: string, id: Uuid) {
    if l.parse(text).Some? then l.parse(text).value == id else l.hash(text) == id
  }

  /** A text that is an id names any node; another names one of those there. */
  predicate NamesNode(l: Lookups, scope: Scope, text: string, id: Uuid) {
    HasId(l, text, id) && (l.parse(text).Some? || id in scope)
  }

  /** A text that is an id names that port; another the one parameter of its name,
      or the return value when `_ret` is the name of none. */
  predicate NamesPort(l: Lookups, function_: Option<Uuid>, text: string, id: Uuid) {
    if l.parse(text).Some? then l.parse(text).value == id
    else
      && function_.Some? && l.known(function_.value).Some?
      && var parameters := l.known(function_.value).value;
         if text == "_ret" then id == RETURN_PORT && forall p :: p in parameters ==> parameters[p] != "_ret"
         else id in parameters && parameters[id] == text
              && forall p :: p in parameters && parameters[p] == text ==> p == id
  }

  lemma NodeIsNamed(l: Lookups, scope: Scope, text: string, id: Uuid)
    ensures NodeNamed(l, scope, text) == Some(id) <==> NamesNode(l, scope, text, id)
  {
  }

  lemma PortIsNamed(l: Lookups, function_: Option<Uuid>, text: string, id: Uuid)
    ensures PortNamed(l, SignatureOf(l, function_), text) == Some(id) <==> NamesPort(l, function_, text, id)
  {
    if l.parse(text).None? && SignatureOf(l, function_).Some? {
      var parameters := SignatureOf(l, function_).value;
      var named := Parameters(parameters, text);
      if text == "_ret" {
        assert named == {} <==> forall p :: p in parameters ==> parameters[p] != "_ret" by {
          forall p | p in parameters && parameters[p] == "_ret" ensures p in named {
          }
        }
      } else {
        OneParameter(parameters, text, id);
      }
    }
  }

  lemma OneParameter(parameters: Signature, text: string, id: Uuid)
    ensures Parameters(parameters, text) == {id}
            <==> id in parameters && parameters[id] == text
                 && forall p :: p in parameters && parameters[p] == text ==> p == id
    ensures |Parameters(parameters, text)| == 1 ==>
              (id in Parameters(parameters, text) <==> Parameters(parameters, text) == {id})
  {
    var named := Parameters(parameters, text);
    if id in named {
      assert |named - {id}| == |named| - 1;
      if named == {id} {
        forall p | p in parameters && parameters[p] == text ensures p == id {
          assert p in named;
        }
      }
    }
  }

  // Sources and ports.

  function FunctionIn(scope: Scope, node: Uuid): Option<Uuid> {
    if node in scope then scope[node] else None
  }

  /** A node whose function is not found has no port a text may name. */
  predicate NamesPortOf(l: Lookups, scope: Scope, text: TextPort, port: Port) {
    && NamesNode(l, scope, text.node, port.node)
    && (port.node in scope ==> scope[port.node].Some?)
    && NamesPort(l, FunctionIn(scope, port.node), text.port, port.port)
  }

  predicate Describes(l: Lookups, scope: Scope, text: TextSource, source: Source) {
    match text
    case TextValue(value) => source == Literal(value)
    case TextKey(path) => source == Key(path)
    case TextReads(port) => source.Reads? && NamesPortOf(l, scope, port, source.port)
    case TextSelect(inner, selection) =>
      source.Select? && source.selection == selection && Describes(l, scope, inner, source.source)
  }

  lemma PortIsRead(l: Lookups, scope: Scope, text: TextPort, port: Port)
    ensures PortRead(l, scope, text) == Some(port) <==> NamesPortOf(l, scope, text, port)
  {
    hide PortNamed, NamesPort, NodeNamed, NamesNode;
    NodeIsNamed(l, scope, text.node, port.node);
    PortIsNamed(l, FunctionIn(scope, port.node), text.port, port.port);
  }

  lemma {:induction false} SourceIsRead(l: Lookups, scope: Scope, text: TextSource, source: Source)
    ensures SourceRead(l, scope, text) == Some(source) <==> Describes(l, scope, text, source)
    decreases text
  {
    hide PortRead, NamesPortOf;
    match text {
      case TextReads(port) =>
        if source.Reads? {
          PortIsRead(l, scope, port, source.port);
        }
      case TextSelect(inner, selection) =>
        if source.Select? {
          SourceIsRead(l, scope, inner, source.source);
        }
      case _ =>
    }
  }

  // Nodes.

  /** The bindings a node's texts describe: each text names a port of its own, and
      each port bound has its source of one. */
  ghost predicate DescribesBind(l: Lookups, scope: Scope, function_: Uuid, texts: map<string, TextSource>,
                                bind: map<Uuid, Source>)
  {
    && (forall text :: text in texts ==> BoundBy(l, scope, function_, texts, bind, text))
    && (forall port :: port in bind ==> BoundTo(l, function_, texts, port))
    && BindsApart(l, function_, texts)
  }

  /** No two texts name one port. */
  ghost predicate BindsApart(l: Lookups, function_: Uuid, texts: map<string, TextSource>) {
    forall a, b, port | a in texts && b in texts ::
      NamesPort(l, Some(function_), a, port) && NamesPort(l, Some(function_), b, port) ==> a == b
  }

  ghost predicate BoundBy(l: Lookups, scope: Scope, function_: Uuid, texts: map<string, TextSource>,
                          bind: map<Uuid, Source>, text: string)
    requires text in texts
  {
    exists port :: NamesPort(l, Some(function_), text, port) && port in bind
                   && Describes(l, scope, texts[text], bind[port])
  }

  ghost predicate BoundTo(l: Lookups, function_: Uuid, texts: map<string, TextSource>, port: Uuid) {
    exists text :: text in texts && NamesPort(l, Some(function_), text, port)
  }

  lemma BoundIsRead(l: Lookups, scope: Scope, function_: Uuid, texts: map<string, TextSource>, text: string)
    requires BindReads(l, scope, l.known(function_), texts) && text in texts
    ensures BoundBy(l, scope, function_, texts, BindRead(l, scope, l.known(function_), texts), text)
  {
    hide PortNamed, NamesPort, SourceRead, Describes, BindRead;
    var port := PortNamed(l, l.known(function_), text).value;
    ReadAt(l, scope, l.known(function_), texts, text);
    PortIsNamed(l, Some(function_), text, port);
    SourceIsRead(l, scope, texts[text], BindRead(l, scope, l.known(function_), texts)[port]);
  }

  lemma PortIsBound(l: Lookups, scope: Scope, function_: Uuid, texts: map<string, TextSource>, port: Uuid)
    requires BindReads(l, scope, l.known(function_), texts)
    requires port in BindRead(l, scope, l.known(function_), texts)
    ensures BoundTo(l, function_, texts, port)
  {
    hide PortNamed, NamesPort, SourceRead;
    var text :| text in texts && PortNamed(l, l.known(function_), text).value == port;
    PortIsNamed(l, Some(function_), text, port);
  }

  lemma ReadApart(l: Lookups, function_: Uuid, texts: map<string, TextSource>)
    ensures BindsApart(l, function_, texts)
            <==> forall a, b | a in texts && b in texts && PortNamed(l, l.known(function_), a).Some? ::
                   PortNamed(l, l.known(function_), a) == PortNamed(l, l.known(function_), b) ==> a == b
  {
    hide PortNamed, NamesPort;
    forall text, port
      ensures PortNamed(l, l.known(function_), text) == Some(port) <==> NamesPort(l, Some(function_), text, port)
    {
      PortIsNamed(l, Some(function_), text, port);
    }
    if BindsApart(l, function_, texts) {
      forall a, b | a in texts && b in texts && PortNamed(l, l.known(function_), a).Some?
                    && PortNamed(l, l.known(function_), a) == PortNamed(l, l.known(function_), b)
        ensures a == b
      {
        assert NamesPort(l, Some(function_), a, PortNamed(l, l.known(function_), a).value);
      }
    }
  }

  lemma BindDescribed(l: Lookups, scope: Scope, function_: Uuid, texts: map<string, TextSource>)
    requires BindReads(l, scope, l.known(function_), texts)
    ensures DescribesBind(l, scope, function_, texts, BindRead(l, scope, l.known(function_), texts))
  {
    hide PortNamed, SourceRead, BoundBy, BoundTo, BindsApart, BindRead;
    forall text | text in texts
      ensures BoundBy(l, scope, function_, texts, BindRead(l, scope, l.known(function_), texts), text)
    {
      BoundIsRead(l, scope, function_, texts, text);
    }
    forall port | port in BindRead(l, scope, l.known(function_), texts) ensures BoundTo(l, function_, texts, port) {
      PortIsBound(l, scope, function_, texts, port);
    }
    ReadApart(l, function_, texts);
  }

  /** A text that binds a port is read so. */
  lemma BoundReads(l: Lookups, scope: Scope, function_: Uuid, texts: map<string, TextSource>, bind: map<Uuid, Source>,
                   text: string)
    requires text in texts && BoundBy(l, scope, function_, texts, bind, text)
    ensures PortNamed(l, l.known(function_), text).Some? && PortNamed(l, l.known(function_), text).value in bind
    ensures SourceRead(l, scope, texts[text]) == Some(bind[PortNamed(l, l.known(function_), text).value])
  {
    hide PortNamed, NamesPort, SourceRead, Describes;
    var port :| NamesPort(l, Some(function_), text, port) && port in bind
                && Describes(l, scope, texts[text], bind[port]);
    PortIsNamed(l, Some(function_), text, port);
    SourceIsRead(l, scope, texts[text], bind[port]);
  }

  lemma DescribedReads(l: Lookups, scope: Scope, function_: Uuid, texts: map<string, TextSource>,
                       bind: map<Uuid, Source>)
    requires DescribesBind(l, scope, function_, texts, bind)
    ensures BindReads(l, scope, l.known(function_), texts)
    ensures BindRead(l, scope, l.known(function_), texts) == bind
  {
    hide PortNamed, SourceRead, BoundBy, BoundTo, BindsApart, BindRead;
    forall text | text in texts
      ensures PortNamed(l, l.known(function_), text).Some? && PortNamed(l, l.known(function_), text).value in bind
      ensures SourceRead(l, scope, texts[text]) == Some(bind[PortNamed(l, l.known(function_), text).value])
    {
      BoundReads(l, scope, function_, texts, bind, text);
    }
    ReadApart(l, function_, texts);
    SameBind(l, scope, function_, texts, bind);
  }

  lemma SameBind(l: Lookups, scope: Scope, function_: Uuid, texts: map<string, TextSource>, bind: map<Uuid, Source>)
    requires BindReads(l, scope, l.known(function_), texts) && DescribesBind(l, scope, function_, texts, bind)
    ensures BindRead(l, scope, l.known(function_), texts) == bind
  {
    hide PortNamed, SourceRead, NamesPort, BoundBy, BindsApart, Describes, BindRead;
    var read := BindRead(l, scope, l.known(function_), texts);
    forall port | port in read ensures port in bind && bind[port] == read[port] {
      var text := TextRead(l, scope, l.known(function_), texts, port);
      BoundReads(l, scope, function_, texts, bind, text);
      ReadAt(l, scope, l.known(function_), texts, text);
    }
    forall port | port in bind ensures port in read {
      assert BoundTo(l, function_, texts, port);
      var text :| text in texts && NamesPort(l, Some(function_), text, port);
      PortIsNamed(l, Some(function_), text, port);
      ReadAt(l, scope, l.known(function_), texts, text);
    }
  }

  lemma BindIsRead(l: Lookups, scope: Scope, function_: Uuid, texts: map<string, TextSource>, bind: map<Uuid, Source>)
    ensures BindReads(l, scope, l.known(function_), texts) && BindRead(l, scope, l.known(function_), texts) == bind
            <==> DescribesBind(l, scope, function_, texts, bind)
  {
    hide BindReads, BindRead, DescribesBind;
    if DescribesBind(l, scope, function_, texts, bind) {
      DescribedReads(l, scope, function_, texts, bind);
    } else if BindReads(l, scope, l.known(function_), texts) {
      BindDescribed(l, scope, function_, texts);
    }
  }

  /** The nodes a list of references names, in order. */
  predicate NamesNodes(l: Lookups, scope: Scope, texts: seq<string>, ids: seq<Uuid>) {
    |ids| == |texts| && forall i :: 0 <= i < |texts| ==> NamesNode(l, scope, texts[i], ids[i])
  }

  lemma NodesAreNamed(l: Lookups, scope: Scope, texts: seq<string>, ids: seq<Uuid>)
    ensures ReferencesRead(l, scope, texts) && ReferencesOf(l, scope, texts) == ids
            <==> NamesNodes(l, scope, texts, ids)
  {
    hide NodeNamed, NamesNode;
    if NamesNodes(l, scope, texts, ids) {
      forall i | 0 <= i < |texts| ensures NodeNamed(l, scope, texts[i]) == Some(ids[i]) {
        NodeIsNamed(l, scope, texts[i], ids[i]);
      }
    }
    if ReferencesRead(l, scope, texts) && ReferencesOf(l, scope, texts) == ids {
      forall i | 0 <= i < |texts| ensures NamesNode(l, scope, texts[i], ids[i]) {
        NodeIsNamed(l, scope, texts[i], ids[i]);
      }
    }
  }

  ghost predicate DescribesNode(l: Lookups, scope: Scope, text: TextNode, n: Node) {
    && HasId(l, text.id, n.id)
    && l.find(text.function_) == Some(n.function_)
    && DescribesBind(l, scope, n.function_, text.bind, n.bind)
    && (text.children.None? <==> n.children.None?)
    && (text.children.Some? && n.children.Some? ==> NamesNodes(l, scope, text.children.value, n.children.value))
  }

  lemma NodeIsRead(l: Lookups, scope: Scope, text: TextNode, n: Node)
    ensures NodeReads(l, scope, text) && NodeRead(l, scope, text) == n <==> DescribesNode(l, scope, text, n)
  {
    hide BindReads, BindRead, DescribesBind, ReferencesRead, ReferencesOf, NamesNodes;
    BindIsRead(l, scope, n.function_, text.bind, n.bind);
    if text.children.Some? && n.children.Some? {
      NodesAreNamed(l, scope, text.children.value, n.children.value);
    }
  }

  // Whole files.

  /** The last node listed under an id. */
  predicate LastListed(l: Lookups, listed: seq<TextNode>, i: nat, id: Uuid) {
    i < |listed| && HasId(l, listed[i].id, id) && forall j :: i < j < |listed| ==> !HasId(l, listed[j].id, id)
  }

  predicate Unlisted(l: Lookups, listed: seq<TextNode>, id: Uuid) {
    forall i :: 0 <= i < |listed| ==> !HasId(l, listed[i].id, id)
  }

  /** The nodes references may name: those of `base`, and those listed, each with
      what the function of the last listed under its id is found to be. */
  ghost predicate MayName(l: Lookups, base: Scope, listed: seq<TextNode>, scope: Scope) {
    && (forall i: nat, id :: LastListed(l, listed, i, id) ==> id in scope && scope[id] == l.find(listed[i].function_))
    && forall id :: Unlisted(l, listed, id) ==>
         (id in scope <==> id in base) && (id in scope ==> scope[id] == base[id])
  }

  lemma {:induction false} ListedOrNot(l: Lookups, listed: seq<TextNode>, id: Uuid) returns (i: nat)
    ensures LastListed(l, listed, i, id) || Unlisted(l, listed, id)
    decreases |listed|
  {
    i := 0;
    if listed != [] {
      var init, last := listed[..|listed| - 1], listed[|listed| - 1];
      if HasId(l, last.id, id) {
        i := |listed| - 1;
      } else {
        i := ListedOrNot(l, init, id);
        assert forall j :: 0 <= j < |init| ==> init[j] == listed[j];
      }
    }
  }

  lemma {:induction false} HeadsName(l: Lookups, base: Scope, listed: seq<TextNode>, id: Uuid, i: nat)
    ensures LastListed(l, listed, i, id) ==>
              id in Heads(l, base, listed) && Heads(l, base, listed)[id] == l.find(listed[i].function_)
    ensures Unlisted(l, listed, id) ==>
              (id in Heads(l, base, listed) <==> id in base)
              && (id in base ==> Heads(l, base, listed)[id] == base[id])
    decreases |listed|
  {
    if listed != [] {
      var init, last := listed[..|listed| - 1], listed[|listed| - 1];
      HeadsName(l, base, init, id, i);
      assert forall j :: 0 <= j < |init| ==> init[j] == listed[j];
      assert HasId(l, last.id, id) <==> NodeId(l, last.id) == id;
    }
  }

  /** What references may name is one thing. */
  lemma HeadsAreThose(l: Lookups, base: Scope, listed: seq<TextNode>, scope: Scope)
    ensures MayName(l, base, listed, scope) <==> scope == Heads(l, base, listed)
  {
    hide Heads, HasId;
    var heads := Heads(l, base, listed);
    forall i: nat, id | LastListed(l, listed, i, id)
      ensures id in heads && heads[id] == l.find(listed[i].function_)
    {
      HeadsName(l, base, listed, id, i);
    }
    forall id | Unlisted(l, listed, id)
      ensures (id in heads <==> id in base) && (id in heads ==> heads[id] == base[id])
    {
      HeadsName(l, base, listed, id, 0);
    }
    assert MayName(l, base, listed, heads);
    if MayName(l, base, listed, scope) {
      forall id ensures (id in scope <==> id in heads) && (id in scope ==> scope[id] == heads[id]) {
        var i := ListedOrNot(l, listed, id);
      }
      assert scope == heads;
    }
  }

  ghost predicate DescribesNodes(l: Lookups, scope: Scope, texts: seq<TextNode>, nodes: seq<Node>) {
    |nodes| == |texts| && forall i :: 0 <= i < |texts| ==> DescribesNode(l, scope, texts[i], nodes[i])
  }

  predicate DescribesRoot(l: Lookups, scope: Scope, text: Option<string>, root: Option<Uuid>) {
    && (text.None? <==> root.None?)
    && (text.Some? && root.Some? ==> NamesNode(l, scope, text.value, root.value))
  }

  lemma NodesAreRead(l: Lookups, scope: Scope, texts: seq<TextNode>, nodes: seq<Node>)
    ensures NodesRead(l, scope, texts) && NodesOf(l, scope, texts) == nodes <==> DescribesNodes(l, scope, texts, nodes)
  {
    hide NodeReads, NodeRead, DescribesNode;
    if |nodes| == |texts| {
      forall i | 0 <= i < |texts|
        ensures NodeReads(l, scope, texts[i]) && NodeRead(l, scope, texts[i]) == nodes[i]
                <==> DescribesNode(l, scope, texts[i], nodes[i])
      {
        NodeIsRead(l, scope, texts[i], nodes[i]);
      }
      if NodesRead(l, scope, texts) && NodesOf(l, scope, texts) == nodes {
        forall i | 0 <= i < |texts| ensures DescribesNode(l, scope, texts[i], nodes[i]) {
          assert NodeRead(l, scope, texts[i]) == nodes[i];
        }
      }
    }
  }

  lemma RootIsRead(l: Lookups, scope: Scope, text: Option<string>, root: Option<Uuid>)
    ensures RootReads(l, scope, text) && RootOf(l, scope, text) == root <==> DescribesRoot(l, scope, text, root)
  {
    if text.Some? && root.Some? {
      NodeIsNamed(l, scope, text.value, root.value);
    }
  }

  /** The graph a file describes: its nodes as listed, their references among
      those listed. */
  ghost predicate DescribesGraph(l: Lookups, file: TextGraph, g: Graph) {
    exists scope :: MayName(l, map[], file.nodes, scope) && DescribesNodes(l, scope, file.nodes, g.nodes)
                    && DescribesRoot(l, scope, file.root, g.root)
  }

  /** A file is read as the graph it describes, and not at all when it describes none. */
  lemma GraphIsRead(l: Lookups, file: TextGraph, g: Graph)
    ensures GraphReads(l, file) && GraphRead(l, file) == g <==> DescribesGraph(l, file, g)
  {
    hide Heads, MayName, NodesRead, NodesOf, DescribesNodes, RootReads, RootOf, DescribesRoot;
    var heads := Heads(l, map[], file.nodes);
    forall scope ensures MayName(l, map[], file.nodes, scope) <==> scope == heads {
      HeadsAreThose(l, map[], file.nodes, scope);
    }
    NodesAreRead(l, heads, file.nodes, g.nodes);
    RootIsRead(l, heads, file.root, g.root);
  }

  // Diffs.

  predicate LastOf(nodes: seq<Node>, i: nat, id: Uuid) {
    i < |nodes| && nodes[i].id == id && forall j :: i < j < |nodes| ==> nodes[j].id != id
  }

  /** The nodes of a graph, each with its function. */
  ghost predicate NodesOfGraph(nodes: seq<Node>, scope: Scope) {
    && (forall i: nat, id :: LastOf(nodes, i, id) ==> id in scope && scope[id] == Some(nodes[i].function_))
    && forall id :: id in scope ==> exists n :: n in nodes && n.id == id
  }

  lemma {:induction false} ScopeHas(nodes: seq<Node>, id: Uuid, i: nat)
    ensures LastOf(nodes, i, id) ==>
              id in ScopeOf(map[], nodes) && ScopeOf(map[], nodes)[id] == Some(nodes[i].function_)
    ensures id in ScopeOf(map[], nodes) ==> exists n :: n in nodes && n.id == id
    decreases |nodes|
  {
    if nodes != [] {
      var init, last := nodes[..|nodes| - 1], nodes[|nodes| - 1];
      ScopeHas(init, id, i);
      assert last in nodes && (forall n :: n in init ==> n in nodes);
      assert forall j :: 0 <= j < |init| ==> init[j] == nodes[j];
    }
  }

  lemma {:induction false} LastOne(nodes: seq<Node>, id: Uuid) returns (i: nat)
    requires exists n :: n in nodes && n.id == id
    ensures LastOf(nodes, i, id)
    decreases |nodes|
  {
    var init, last := nodes[..|nodes| - 1], nodes[|nodes| - 1];
    if last.id == id {
      i := |nodes| - 1;
    } else {
      assert nodes == init + [last];
      i := LastOne(init, id);
      assert forall j :: 0 <= j < |init| ==> init[j] == nodes[j];
    }
  }

  lemma ScopeIsThose(nodes: seq<Node>, scope: Scope)
    ensures NodesOfGraph(nodes, scope) <==> scope == ScopeOf(map[], nodes)
  {
    hide ScopeOf;
    var those := ScopeOf(map[], nodes);
    forall i: nat, id | LastOf(nodes, i, id) ensures id in those && those[id] == Some(nodes[i].function_) {
      ScopeHas(nodes, id, i);
    }
    forall id | id in those ensures exists n :: n in nodes && n.id == id {
      ScopeHas(nodes, id, 0);
    }
    assert NodesOfGraph(nodes, those);
    if NodesOfGraph(nodes, scope) {
      forall id ensures (id in scope <==> id in those) && (id in scope ==> scope[id] == those[id]) {
        if exists n :: n in nodes && n.id == id {
          var i := LastOne(nodes, id);
        }
      }
      assert scope == those;
    }
  }

  ghost predicate DescribesPorts(l: Lookups, scope: Scope, texts: seq<TextPort>, ports: seq<Port>) {
    |ports| == |texts| && forall i :: 0 <= i < |texts| ==> NamesPortOf(l, scope, texts[i], ports[i])
  }

  ghost predicate DescribesBindings(l: Lookups, scope: Scope, texts: seq<TextBinding>, bind: seq<Binding>) {
    && |bind| == |texts|
    && forall i :: 0 <= i < |texts| ==> DescribesBinding(l, scope, texts[i], bind[i])
  }

  predicate DescribesBinding(l: Lookups, scope: Scope, text: TextBinding, b: Binding) {
    NamesPortOf(l, scope, TextPort(text.node, text.port), Port(b.node, b.port))
    && Describes(l, scope, text.source, b.source)
  }

  lemma PortsAreRead(l: Lookups, scope: Scope, texts: seq<TextPort>, ports: seq<Port>)
    ensures PortsRead(l, scope, texts) && Readable.PortsOf(l, scope, texts) == ports
            <==> DescribesPorts(l, scope, texts, ports)
  {
    hide PortRead, NamesPortOf;
    if |ports| == |texts| {
      forall i | 0 <= i < |texts|
        ensures PortRead(l, scope, texts[i]) == Some(ports[i]) <==> NamesPortOf(l, scope, texts[i], ports[i])
      {
        PortIsRead(l, scope, texts[i], ports[i]);
      }
      if PortsRead(l, scope, texts) && Readable.PortsOf(l, scope, texts) == ports {
        forall i | 0 <= i < |texts| ensures NamesPortOf(l, scope, texts[i], ports[i]) {
          assert PortRead(l, scope, texts[i]).value == ports[i];
        }
      }
    }
  }

  lemma BindingIsRead(l: Lookups, scope: Scope, text: TextBinding, b: Binding)
    ensures PortRead(l, scope, TextPort(text.node, text.port)) == Some(Port(b.node, b.port))
            && SourceRead(l, scope, text.source) == Some(b.source)
            <==> DescribesBinding(l, scope, text, b)
  {
    hide PortRead, NamesPortOf, SourceRead, Describes;
    PortIsRead(l, scope, TextPort(text.node, text.port), Port(b.node, b.port));
    SourceIsRead(l, scope, text.source, b.source);
  }

  lemma BindingsAreRead(l: Lookups, scope: Scope, texts: seq<TextBinding>, bind: seq<Binding>)
    ensures BindingsRead(l, scope, texts) && BindingsOf(l, scope, texts) == bind
            <==> DescribesBindings(l, scope, texts, bind)
  {
    hide PortRead, SourceRead, DescribesBinding;
    if |bind| == |texts| {
      forall i | 0 <= i < |texts|
        ensures PortRead(l, scope, TextPort(texts[i].node, texts[i].port)) == Some(Port(bind[i].node, bind[i].port))
                && SourceRead(l, scope, texts[i].source) == Some(bind[i].source)
                <==> DescribesBinding(l, scope, texts[i], bind[i])
      {
        BindingIsRead(l, scope, texts[i], bind[i]);
      }
      if BindingsRead(l, scope, texts) && BindingsOf(l, scope, texts) == bind {
        forall i | 0 <= i < |texts| ensures DescribesBinding(l, scope, texts[i], bind[i]) {
          assert bind[i] == BindingsOf(l, scope, texts)[i];
        }
      }
    }
  }

  /** The diff a file describes over a graph: what it removes named in the graph,
      and all else among what is left of it and what it sets. */
  ghost predicate DescribesDiff(l: Lookups, file: TextDiff, base: Graph, diff: GraphDiff) {
    exists before, scope ::
      && NodesOfGraph(base.nodes, before) && NamesNodes(l, before, file.remove, diff.remove)
      && MayName(l, before - (set id | id in diff.remove), file.set_, scope)
      && DescribesNodes(l, scope, file.set_, diff.set_) && DescribesPorts(l, scope, file.unbind, diff.unbind)
      && DescribesBindings(l, scope, file.bind, diff.bind) && DescribesRoot(l, scope, file.root, diff.root)
  }

  lemma DiffIsRead(l: Lookups, file: TextDiff, base: Graph, diff: GraphDiff)
    ensures DiffReads(l, file, base) && DiffRead(l, file, base) == diff <==> DescribesDiff(l, file, base, diff)
  {
    hide Heads, MayName, NodesRead, NodesOf, DescribesNodes, RootReads, RootOf, DescribesRoot, ScopeOf, NodesOfGraph,
         ReferencesRead, ReferencesOf, NamesNodes, PortsRead, Readable.PortsOf, DescribesPorts, BindingsRead,
         BindingsOf, DescribesBindings;
    var before := ScopeOf(map[], base.nodes);
    forall scope ensures NodesOfGraph(base.nodes, scope) <==> scope == before {
      ScopeIsThose(base.nodes, scope);
    }
    NodesAreNamed(l, before, file.remove, diff.remove);
    SetOfHas(diff.remove);
    assert SetOf(diff.remove) == set id | id in diff.remove;
    var heads := Heads(l, before - SetOf(diff.remove), file.set_);
    forall scope ensures MayName(l, before - SetOf(diff.remove), file.set_, scope) <==> scope == heads {
      HeadsAreThose(l, before - SetOf(diff.remove), file.set_, scope);
    }
    NodesAreRead(l, heads, file.set_, diff.set_);
    PortsAreRead(l, heads, file.unbind, diff.unbind);
    BindingsAreRead(l, heads, file.bind, diff.bind);
    RootIsRead(l, heads, file.root, diff.root);
  }
}
