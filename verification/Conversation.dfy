/** `orderConversationMessages`: message threading by In-Reply-To and References (section 3.6.4 of RFC 5322).
    The messages of a conversation and the message ids they mention become the nodes of a graph whose edges
    say what must come first. */
module Conversation {
  import opened Orders
  import opened Graphs
  import opened PriorityQueue
  import opened GreedyOrder
  import opened DirectedGraphOrder

  datatype Message = Message(
    id: string, identityKey: string, messageId: Option<string>, receivedAt: Option<string>,
    inReplyTo: Option<string>, references: seq<string>,
    referenceSequences: Option<seq<seq<string>>>, threadingEdges: Option<seq<string>>)

  datatype OrderNode = MessageNode(message: Message) | ReferenceNode(messageId: string)

  type Pairs = set<(OrderNode, OrderNode)>

  predicate IsMessage(node: OrderNode) { node.MessageNode? }

  // Lookup tables: the last message with an id, or with a message id, wins.

  function ById(messages: seq<Message>): (m: map<string, Message>)
    ensures forall i :: 0 <= i < |messages| ==> messages[i].id in m
    ensures forall k :: k in m ==> m[k] in messages && m[k].id == k
  {
    if messages == [] then map[]
    else ById(messages[..|messages| - 1])[messages[|messages| - 1].id := messages[|messages| - 1]]
  }

  predicate HasMessageId(message: Message) {
    message.messageId.Some? && message.messageId.value != ""
  }

  /** `byMessageId`, given the table of messages by id. */
  function ByMessageId(byId: map<string, Message>, messages: seq<Message>): (m: map<string, Message>)
    requires forall i :: 0 <= i < |messages| ==> messages[i].id in byId
    ensures forall k :: k in m ==> m[k] in byId.Values
  {
    if messages == [] then map[]
    else
      var m := ByMessageId(byId, messages[..|messages| - 1]);
      var last := messages[|messages| - 1];
      if HasMessageId(last) then m[last.messageId.value := byId[last.id]] else m
  }

  /** `nodeForReference`: a reference to a message of the conversation stands for that message. */
  function NodeFor(byMessageId: map<string, Message>, reference: string): OrderNode {
    if reference in byMessageId then MessageNode(byMessageId[reference]) else ReferenceNode(reference)
  }

  function OrEmpty<T>(value: Option<seq<T>>): seq<T> {
    match value case None => [] case Some(s) => s
  }

  function Parents(normalize: string -> seq<string>, inReplyTo: Option<string>): seq<string> {
    match inReplyTo case None => [] case Some(field) => normalize(field)
  }

  /** The reference sequences a message brings: its own if present, else its References field as one. */
  function SequencesOf(message: Message): seq<seq<string>> {
    match message.referenceSequences case Some(sequences) => sequences case None => [message.references]
  }

  // What one message adds to the graph.

  /** Every parent precedes the message. */
  function ParentPairs(byMessageId: map<string, Message>, parents: seq<string>, self: OrderNode): Pairs {
    set p | p in parents && NodeFor(byMessageId, p) != self :: (NodeFor(byMessageId, p), self)
  }

  /** The nodes of a reference sequence, without the message itself. */
  function Ancestors(byMessageId: map<string, Message>, references: seq<string>, self: OrderNode): seq<OrderNode> {
    if references == [] then []
    else
      var front := Ancestors(byMessageId, references[..|references| - 1], self);
      var node := NodeFor(byMessageId, references[|references| - 1]);
      if node == self then front else front + [node]
  }

  /** Each ancestor precedes the next, and the last precedes the message. */
  function ChainPairs(ancestors: seq<OrderNode>, self: OrderNode): Pairs {
    LinkPairs(ancestors) + if ancestors == [] then {} else {(ancestors[|ancestors| - 1], self)}
  }

  function LinkPairs(ancestors: seq<OrderNode>): Pairs {
    if |ancestors| <= 1 then {}
    else LinkPairs(ancestors[..|ancestors| - 1]) + {(ancestors[|ancestors| - 2], ancestors[|ancestors| - 1])}
  }

  function SequencePairs(byMessageId: map<string, Message>, sequences: seq<seq<string>>, self: OrderNode): Pairs {
    if sequences == [] then {}
    else
      SequencePairs(byMessageId, sequences[..|sequences| - 1], self)
      + ChainPairs(Ancestors(byMessageId, Unique(sequences[|sequences| - 1]), self), self)
  }

  function PairsOf(normalize: string -> seq<string>, byMessageId: map<string, Message>, self: OrderNode, message: Message): Pairs {
    ParentPairs(byMessageId, Parents(normalize, message.inReplyTo), self)
    + SequencePairs(byMessageId, SequencesOf(message), self)
    + ParentPairs(byMessageId, Unique(OrEmpty(message.threadingEdges)), self)
  }

  function NodesFor(byMessageId: map<string, Message>, references: seq<string>): set<OrderNode> {
    set r | r in references :: NodeFor(byMessageId, r)
  }

  function SequenceNodes(byMessageId: map<string, Message>, sequences: seq<seq<string>>): set<OrderNode> {
    if sequences == [] then {}
    else SequenceNodes(byMessageId, sequences[..|sequences| - 1]) + NodesFor(byMessageId, sequences[|sequences| - 1])
  }

  function NodesOf(normalize: string -> seq<string>, byMessageId: map<string, Message>, self: OrderNode, message: Message): set<OrderNode> {
    {self} + NodesFor(byMessageId, Parents(normalize, message.inReplyTo))
    + SequenceNodes(byMessageId, SequencesOf(message))
    + NodesFor(byMessageId, OrEmpty(message.threadingEdges))
  }

  // The graph is edited in place: `children` keeps its keys in insertion order.

  ghost predicate Grown(g: Graph<OrderNode>, h: Graph<OrderNode>, nodes: set<OrderNode>, pairs: Pairs) {
    && WellFormed(h)
    && (forall n :: n in h.after <==> n in g.after || n in nodes)
    && (forall u, v :: Edge(h, u, v) <==> Edge(g, u, v) || (u, v) in pairs)
  }

  method AddNode(g: Graph<OrderNode>, node: OrderNode) returns (h: Graph<OrderNode>)
    requires WellFormed(g)
    ensures Grown(g, h, {node}, {})
    ensures node in g.after ==> h == g
  {
    if node in g.after { return g; }
    h := Graph(g.nodes + [node], g.after[node := []]);
  }

  method AddEdge(g: Graph<OrderNode>, from: OrderNode, to: OrderNode) returns (h: Graph<OrderNode>)
    requires WellFormed(g) && from in g.after && to in g.after
    ensures Grown(g, h, {}, {(from, to)})
  {
    if to in g.after[from] { return g; }
    h := Graph(g.nodes, g.after[from := g.after[from] + [to]]);
  }

  lemma GrownTwice(f: Graph<OrderNode>, g: Graph<OrderNode>, h: Graph<OrderNode>, nodes: set<OrderNode>, pairs: Pairs,
                   nodes': set<OrderNode>, pairs': Pairs)
    requires Grown(f, g, nodes, pairs) && Grown(g, h, nodes', pairs')
    ensures Grown(f, h, nodes + nodes', pairs + pairs')
  {
  }

  /** `for (const parent of …) { … children.get(parentNode)!.add(messageNode) }`. */
  method AddParents(g: Graph<OrderNode>, byMessageId: map<string, Message>, parents: seq<string>, self: OrderNode)
    returns (h: Graph<OrderNode>)
    requires WellFormed(g) && self in g.after
    ensures Grown(g, h, NodesFor(byMessageId, parents), ParentPairs(byMessageId, parents, self))
  {
    h := g;
    for i := 0 to |parents|
      invariant Grown(g, h, NodesFor(byMessageId, parents[..i]), ParentPairs(byMessageId, parents[..i], self))
    {
      ghost var before := h;
      var parentNode := NodeFor(byMessageId, parents[i]);
      h := AddNode(h, parentNode);
      GrownTwice(g, before, h, NodesFor(byMessageId, parents[..i]), ParentPairs(byMessageId, parents[..i], self), {parentNode}, {});
      if parentNode != self {
        ghost var between := h;
        h := AddEdge(h, parentNode, self);
        GrownTwice(g, between, h, NodesFor(byMessageId, parents[..i]) + {parentNode},
                   ParentPairs(byMessageId, parents[..i], self) + {}, {}, {(parentNode, self)});
      }
      ParentStep(byMessageId, parents, self, i);
    }
    assert parents[..|parents|] == parents;
  }

  lemma ParentStep(byMessageId: map<string, Message>, parents: seq<string>, self: OrderNode, i: nat)
    requires i < |parents|
    ensures NodesFor(byMessageId, parents[..i + 1]) == NodesFor(byMessageId, parents[..i]) + {NodeFor(byMessageId, parents[i])}
    ensures ParentPairs(byMessageId, parents[..i + 1], self) == ParentPairs(byMessageId, parents[..i], self)
      + if NodeFor(byMessageId, parents[i]) == self then {} else {(NodeFor(byMessageId, parents[i]), self)}
  {
    assert forall p :: p in parents[..i + 1] <==> p in parents[..i] || p == parents[i];
  }

  /** One reference: its node joins the graph, linked to the ancestor before it. */
  method AddAncestor(g: Graph<OrderNode>, previousAncestor: Option<OrderNode>, ancestor: OrderNode) returns (h: Graph<OrderNode>)
    requires WellFormed(g) && (previousAncestor.Some? ==> previousAncestor.value in g.after)
    ensures Grown(g, h, {ancestor}, if previousAncestor.None? then {} else {(previousAncestor.value, ancestor)})
  {
    h := AddNode(g, ancestor);
    if previousAncestor.Some? {
      ghost var between := h;
      h := AddEdge(h, previousAncestor.value, ancestor);
      GrownTwice(g, between, h, {ancestor}, {}, {}, {(previousAncestor.value, ancestor)});
    }
  }

  function Last(ancestors: seq<OrderNode>): Option<OrderNode> {
    if ancestors == [] then None else Some(ancestors[|ancestors| - 1])
  }

  lemma AncestorStep(byMessageId: map<string, Message>, references: seq<string>, self: OrderNode, i: nat)
    requires i < |references|
    ensures var before, after := Ancestors(byMessageId, references[..i], self), Ancestors(byMessageId, references[..i + 1], self);
      var node := NodeFor(byMessageId, references[i]);
      && (node == self ==> after == before)
      && (node != self ==> Last(after) == Some(node))
      && (node != self ==> LinkPairs(after) == LinkPairs(before) + if before == [] then {} else {(Last(before).value, node)})
  {
    assert references[..i + 1][..i] == references[..i];
    var before, node := Ancestors(byMessageId, references[..i], self), NodeFor(byMessageId, references[i]);
    assert (before + [node])[..|before|] == before;
  }

  lemma GrownFacts(g: Graph<OrderNode>, h: Graph<OrderNode>, nodes: set<OrderNode>, pairs: Pairs, node: OrderNode)
    requires Grown(g, h, nodes, pairs)
    ensures WellFormed(h) && (node in g.after || node in nodes ==> node in h.after)
  {
  }

  /** The loop over one reference sequence, with `previousAncestor`. */
  method AddSequence(g: Graph<OrderNode>, byMessageId: map<string, Message>, references: seq<string>, self: OrderNode)
    returns (h: Graph<OrderNode>)
    requires WellFormed(g) && self in g.after
    ensures Grown(g, h, NodesFor(byMessageId, references), ChainPairs(Ancestors(byMessageId, references, self), self))
  {
    hide Grown, WellFormed, LinkPairs, Ancestors, NodesFor, ParentPairs;
    h := g;
    var previousAncestor: Option<OrderNode> := None;
    SequenceStarts(g, byMessageId, self);
    for i := 0 to |references|
      invariant Grown(g, h, NodesFor(byMessageId, references[..i]), LinkPairs(Ancestors(byMessageId, references[..i], self)))
      invariant WellFormed(h) && self in h.after
      invariant previousAncestor == Last(Ancestors(byMessageId, references[..i], self))
      invariant previousAncestor.Some? ==> previousAncestor.value in h.after
    {
      ghost var before := h;
      ghost var nodes, links := NodesFor(byMessageId, references[..i]), LinkPairs(Ancestors(byMessageId, references[..i], self));
      var ancestor := NodeFor(byMessageId, references[i]);
      ParentStep(byMessageId, references, self, i);
      AncestorStep(byMessageId, references, self, i);
      if ancestor == self {
        h := AddNode(h, ancestor);
        GrownTwice(g, before, h, nodes, links, {ancestor}, {});
        assert links + {} == links;
      } else {
        h := AddAncestor(h, previousAncestor, ancestor);
        GrownTwice(g, before, h, nodes, links, {ancestor},
                   if previousAncestor.None? then {} else {(previousAncestor.value, ancestor)});
        GrownFacts(before, h, {ancestor}, if previousAncestor.None? then {} else {(previousAncestor.value, ancestor)}, ancestor);
        GrownFacts(before, h, {ancestor}, if previousAncestor.None? then {} else {(previousAncestor.value, ancestor)}, self);
        previousAncestor := Some(ancestor);
      }
    }
    assert references[..|references|] == references;
    ghost var nodes, links := NodesFor(byMessageId, references), LinkPairs(Ancestors(byMessageId, references, self));
    if previousAncestor.Some? {
      ghost var between := h;
      h := AddEdge(h, previousAncestor.value, self);
      GrownTwice(g, between, h, nodes, links, {}, {(previousAncestor.value, self)});
    }
    assert nodes + {} == nodes && links + {} == links;
  }

  lemma SequenceStarts(g: Graph<OrderNode>, byMessageId: map<string, Message>, self: OrderNode)
    requires WellFormed(g)
    ensures Ancestors(byMessageId, [], self) == []
    ensures Grown(g, g, NodesFor(byMessageId, []), LinkPairs([]))
  {
  }

  method AddSequences(g: Graph<OrderNode>, byMessageId: map<string, Message>, sequences: seq<seq<string>>, self: OrderNode)
    returns (h: Graph<OrderNode>)
    requires WellFormed(g) && self in g.after
    ensures Grown(g, h, SequenceNodes(byMessageId, sequences), SequencePairs(byMessageId, sequences, self))
  {
    hide Grown, WellFormed, ChainPairs, Ancestors, NodesFor;
    h := g;
    SequencesStart(g, byMessageId, self);
    for i := 0 to |sequences|
      invariant Grown(g, h, SequenceNodes(byMessageId, sequences[..i]), SequencePairs(byMessageId, sequences[..i], self))
      invariant WellFormed(h) && self in h.after
    {
      ghost var before := h;
      ghost var nodes, pairs := SequenceNodes(byMessageId, sequences[..i]), SequencePairs(byMessageId, sequences[..i], self);
      ghost var sequenceNodes := NodesFor(byMessageId, Unique(sequences[i]));
      ghost var sequencePairs := ChainPairs(Ancestors(byMessageId, Unique(sequences[i]), self), self);
      h := AddSequence(h, byMessageId, Unique(sequences[i]), self);
      GrownTwice(g, before, h, nodes, pairs, sequenceNodes, sequencePairs);
      GrownFacts(before, h, sequenceNodes, sequencePairs, self);
      UniqueNodes(byMessageId, sequences[i]);
      assert sequences[..i + 1][..i] == sequences[..i];
    }
    assert sequences[..|sequences|] == sequences;
  }

  lemma SequencesStart(g: Graph<OrderNode>, byMessageId: map<string, Message>, self: OrderNode)
    requires WellFormed(g)
    ensures Grown(g, g, SequenceNodes(byMessageId, []), SequencePairs(byMessageId, [], self))
  {
  }

  lemma UniqueNodes(byMessageId: map<string, Message>, references: seq<string>)
    ensures NodesFor(byMessageId, Unique(references)) == NodesFor(byMessageId, references)
  {
  }

  /** One turn of the loop over the messages. */
  method AddMessage(g: Graph<OrderNode>, normalize: string -> seq<string>, byMessageId: map<string, Message>,
                    self: OrderNode, message: Message)
    returns (h: Graph<OrderNode>)
    requires WellFormed(g) && self in g.after
    ensures Grown(g, h, NodesOf(normalize, byMessageId, self, message), PairsOf(normalize, byMessageId, self, message))
  {
    hide Grown, WellFormed, ParentPairs, SequencePairs, SequenceNodes, NodesFor;
    var parents, sequences := Parents(normalize, message.inReplyTo), SequencesOf(message);
    var edges := Unique(OrEmpty(message.threadingEdges));
    ghost var n1, p1 := NodesFor(byMessageId, parents), ParentPairs(byMessageId, parents, self);
    ghost var n2, p2 := SequenceNodes(byMessageId, sequences), SequencePairs(byMessageId, sequences, self);
    ghost var n3, p3 := NodesFor(byMessageId, edges), ParentPairs(byMessageId, edges, self);
    var a := AddParents(g, byMessageId, parents, self);
    GrownFacts(g, a, n1, p1, self);
    var b := AddSequences(a, byMessageId, sequences, self);
    GrownFacts(a, b, n2, p2, self);
    h := AddParents(b, byMessageId, edges, self);
    GrownTwice(g, a, b, n1, p1, n2, p2);
    GrownTwice(g, b, h, n1 + n2, p1 + p2, n3, p3);
    UniqueNodes(byMessageId, OrEmpty(message.threadingEdges));
    GrownSelf(g, h, n1 + n2 + n3, p1 + p2 + p3, self);
    assert {self} + n1 + n2 + n3 == n1 + n2 + n3 + {self};
  }

  lemma GrownSelf(g: Graph<OrderNode>, h: Graph<OrderNode>, nodes: set<OrderNode>, pairs: Pairs, self: OrderNode)
    requires Grown(g, h, nodes, pairs) && self in g.after
    ensures Grown(g, h, nodes + {self}, pairs)
  {
  }

  // The graph of a conversation.

  datatype Tables = Tables(byId: map<string, Message>, byMessageId: map<string, Message>)

  function TablesOf(messages: seq<Message>): Tables {
    Tables(ById(messages), ByMessageId(ById(messages), messages))
  }

  function Self(tables: Tables, message: Message): OrderNode {
    MessageNode(if message.id in tables.byId then tables.byId[message.id] else message)
  }

  /** Some message of the conversation is, or mentions, the node. */
  ghost predicate Mentioned(normalize: string -> seq<string>, tables: Tables, messages: seq<Message>, node: OrderNode) {
    exists m :: m in messages && node in NodesOf(normalize, tables.byMessageId, Self(tables, m), m)
  }

  /** Some message of the conversation puts `u` before `v`. */
  ghost predicate Precedes(normalize: string -> seq<string>, tables: Tables, messages: seq<Message>, u: OrderNode, v: OrderNode) {
    exists m :: m in messages && (u, v) in PairsOf(normalize, tables.byMessageId, Self(tables, m), m)
  }

  ghost predicate ThreadGraph(normalize: string -> seq<string>, tables: Tables, messages: seq<Message>, g: Graph<OrderNode>) {
    && WellFormed(g)
    && (forall n {:trigger Mentioned(normalize, tables, messages, n)} :: n in g.nodes <==> Mentioned(normalize, tables, messages, n))
    && (forall u, v {:trigger Precedes(normalize, tables, messages, u, v)} {:trigger Edge(g, u, v)} ::
         Edge(g, u, v) <==> Precedes(normalize, tables, messages, u, v))
  }

  function AllNodes(normalize: string -> seq<string>, tables: Tables, messages: seq<Message>): (all: set<OrderNode>)
    ensures forall n :: n in all <==> Mentioned(normalize, tables, messages, n)
  {
    if messages == [] then {}
    else
      var front, last := messages[..|messages| - 1], messages[|messages| - 1];
      assert forall m :: m in messages <==> m in front || m == last;
      AllNodes(normalize, tables, front) + NodesOf(normalize, tables.byMessageId, Self(tables, last), last)
  }

  function AllPairs(normalize: string -> seq<string>, tables: Tables, messages: seq<Message>): (all: Pairs)
    ensures forall u, v :: (u, v) in all <==> Precedes(normalize, tables, messages, u, v)
  {
    if messages == [] then {}
    else
      var front, last := messages[..|messages| - 1], messages[|messages| - 1];
      assert forall m :: m in messages <==> m in front || m == last;
      AllPairs(normalize, tables, front) + PairsOf(normalize, tables.byMessageId, Self(tables, last), last)
  }

  lemma NoThreads(g: Graph<OrderNode>)
    requires g == Graph([], map[])
    ensures Grown(g, g, {}, {}) && WellFormed(g)
  {
  }

  lemma SelfNodes(normalize: string -> seq<string>, tables: Tables, messages: seq<Message>)
    ensures Selves(tables, messages) <= AllNodes(normalize, tables, messages)
  {
    forall m | m in messages
      ensures Self(tables, m) in AllNodes(normalize, tables, messages)
    {
      assert Self(tables, m) in NodesOf(normalize, tables.byMessageId, Self(tables, m), m);
    }
  }

  function Selves(tables: Tables, messages: seq<Message>): set<OrderNode> {
    set m | m in messages :: Self(tables, m)
  }

  /** The nodes of the messages themselves come first. */
  method AddSelves(tables: Tables, messages: seq<Message>) returns (g: Graph<OrderNode>)
    ensures Grown(Graph([], map[]), g, Selves(tables, messages), {}) && WellFormed(g)
  {
    hide Grown, WellFormed, Self;
    g := Graph([], map[]);
    ghost var start := g;
    ghost var none: Pairs := {};
    NoThreads(g);
    assert Selves(tables, messages[..0]) == {};
    for i := 0 to |messages|
      invariant Grown(start, g, Selves(tables, messages[..i]), none) && WellFormed(g)
    {
      ghost var before := g;
      g := AddNode(g, Self(tables, messages[i]));
      GrownTwice(start, before, g, Selves(tables, messages[..i]), none, {Self(tables, messages[i])}, none);
      GrownFacts(before, g, {Self(tables, messages[i])}, none, Self(tables, messages[i]));
      assert none + none == none;
      assert forall m :: m in messages[..i + 1] <==> m in messages[..i] || m == messages[i];
      assert Selves(tables, messages[..i + 1]) == Selves(tables, messages[..i]) + {Self(tables, messages[i])};
    }
    assert messages[..|messages|] == messages;
  }

  /** Builds `children`: the messages, the ids they mention, and what must precede what. */
  method BuildGraph(messages: seq<Message>, normalize: string -> seq<string>) returns (g: Graph<OrderNode>)
    ensures ThreadGraph(normalize, TablesOf(messages), messages, g)
  {
    hide Grown, WellFormed, AllNodes, AllPairs, NodesOf, PairsOf, Precedes, Mentioned, Self, TablesOf;
    var tables := TablesOf(messages);
    g := AddSelves(tables, messages);
    ghost var start, selves := Graph([], map[]), Selves(tables, messages);
    NoneYet(normalize, tables, messages, selves);
    for i := 0 to |messages|
      invariant WellFormed(g)
      invariant Grown(start, g, selves + AllNodes(normalize, tables, messages[..i]), AllPairs(normalize, tables, messages[..i]))
    {
      ghost var before := g;
      ghost var nodes, pairs := selves + AllNodes(normalize, tables, messages[..i]), AllPairs(normalize, tables, messages[..i]);
      var self := Self(tables, messages[i]);
      ghost var newNodes, newPairs := NodesOf(normalize, tables.byMessageId, self, messages[i]), PairsOf(normalize, tables.byMessageId, self, messages[i]);
      assert self in selves;
      GrownFacts(start, g, nodes, pairs, self);
      g := AddMessage(g, normalize, tables.byMessageId, self, messages[i]);
      GrownTwice(start, before, g, nodes, pairs, newNodes, newPairs);
      GrownFacts(before, g, newNodes, newPairs, self);
      AllStep(normalize, tables, messages, i);
      assert nodes + newNodes == selves + AllNodes(normalize, tables, messages[..i + 1]);
    }
    assert messages[..|messages|] == messages;
    SelfNodes(normalize, tables, messages);
    assert selves + AllNodes(normalize, tables, messages) == AllNodes(normalize, tables, messages);
    GrownThreads(normalize, tables, messages, start, g);
  }

  lemma NoneYet(normalize: string -> seq<string>, tables: Tables, messages: seq<Message>, selves: set<OrderNode>)
    ensures selves + AllNodes(normalize, tables, messages[..0]) == selves && AllPairs(normalize, tables, messages[..0]) == {}
  {
  }

  lemma AllStep(normalize: string -> seq<string>, tables: Tables, messages: seq<Message>, i: nat)
    requires i < |messages|
    ensures AllNodes(normalize, tables, messages[..i + 1]) == AllNodes(normalize, tables, messages[..i])
      + NodesOf(normalize, tables.byMessageId, Self(tables, messages[i]), messages[i])
    ensures AllPairs(normalize, tables, messages[..i + 1]) == AllPairs(normalize, tables, messages[..i])
      + PairsOf(normalize, tables.byMessageId, Self(tables, messages[i]), messages[i])
  {
    assert messages[..i + 1][..i] == messages[..i];
  }

  lemma GrownThreads(normalize: string -> seq<string>, tables: Tables, messages: seq<Message>, empty: Graph<OrderNode>, g: Graph<OrderNode>)
    requires empty == Graph([], map[])
    requires Grown(empty, g, AllNodes(normalize, tables, messages), AllPairs(normalize, tables, messages))
    ensures ThreadGraph(normalize, tables, messages, g)
  {
    hide AllNodes, AllPairs, Mentioned, Precedes;
    assert forall u, v :: !Edge(empty, u, v);
  }

  // The order of the nodes.

  function CompareReceived(locale: (string, string) -> int, left: Option<string>, right: Option<string>): int {
    match (left, right)
    case (None, None) => 0
    case (None, Some(_)) => 1
    case (Some(_), None) => -1
    case (Some(l), Some(r)) => locale(l, r)
  }

  /** Oldest first, undated last, then by identity. */
  function CompareMessages(locale: (string, string) -> int, left: Message, right: Message): int {
    var received := CompareReceived(locale, left.receivedAt, right.receivedAt);
    if received != 0 then received else locale(left.identityKey, right.identityKey)
  }

  function CompareNodes(locale: (string, string) -> int, left: OrderNode, right: OrderNode): int {
    match (left, right)
    case (MessageNode(l), MessageNode(r)) => CompareMessages(locale, l, r)
    case (ReferenceNode(l), ReferenceNode(r)) => locale(l, r)
    case (ReferenceNode(_), MessageNode(_)) => -1
    case (MessageNode(_), ReferenceNode(_)) => 1
  }

  lemma ReceivedTransitive(locale: (string, string) -> int, a: Option<string>, b: Option<string>, c: Option<string>)
    requires TotalOrder(locale) && CompareReceived(locale, a, b) <= 0 && CompareReceived(locale, b, c) <= 0
    ensures CompareReceived(locale, a, c) <= 0
    ensures CompareReceived(locale, a, c) == 0 ==> CompareReceived(locale, a, b) == 0 && CompareReceived(locale, b, c) == 0
  {
    if a.Some? && b.Some? && c.Some? {
      Transitive(locale, a.value, b.value, c.value);
      assert Chain(c.value, a.value, b.value);
      assert Chain(b.value, c.value, a.value);
    }
  }

  lemma MessagesTransitive(locale: (string, string) -> int, a: Message, b: Message, c: Message)
    requires TotalOrder(locale) && CompareMessages(locale, a, b) <= 0 && CompareMessages(locale, b, c) <= 0
    ensures CompareMessages(locale, a, c) <= 0
  {
    ReceivedTransitive(locale, a.receivedAt, b.receivedAt, c.receivedAt);
    assert Chain(a.identityKey, b.identityKey, c.identityKey);
  }

  lemma NodesTransitive(locale: (string, string) -> int, a: OrderNode, b: OrderNode, c: OrderNode)
    requires TotalOrder(locale) && CompareNodes(locale, a, b) <= 0 && CompareNodes(locale, b, c) <= 0
    ensures CompareNodes(locale, a, c) <= 0
  {
    if a.MessageNode? && b.MessageNode? && c.MessageNode? {
      MessagesTransitive(locale, a.message, b.message, c.message);
    }
    if a.ReferenceNode? && b.ReferenceNode? && c.ReferenceNode? {
      Transitive(locale, a.messageId, b.messageId, c.messageId);
    }
  }

  function NodeOrder(locale: (string, string) -> int): (OrderNode, OrderNode) -> int {
    (l, r) => CompareNodes(locale, l, r)
  }

  lemma NodeOrderIsTotal(locale: (string, string) -> int)
    requires TotalOrder(locale)
    ensures TotalPreorder(NodeOrder(locale))
  {
    forall a, b, c | CompareNodes(locale, a, b) <= 0 && CompareNodes(locale, b, c) <= 0
      ensures CompareNodes(locale, a, c) <= 0
    {
      NodesTransitive(locale, a, b, c);
    }
  }

  function MessagesIn(nodes: seq<OrderNode>): seq<Message> {
    if nodes == [] then []
    else
      var front := MessagesIn(nodes[..|nodes| - 1]);
      match nodes[|nodes| - 1]
      case MessageNode(m) => front + [m]
      case ReferenceNode(_) => front
  }

  /** What `orderConversationMessages` computes: the visible listing of an ordered thread graph. */
  ghost predicate OrdersConversation(normalize: string -> seq<string>, locale: (string, string) -> int, messages: seq<Message>,
                                     ordered: seq<Message>, g: Graph<OrderNode>, blocks: seq<seq<OrderNode>>) {
    && ThreadGraph(normalize, TablesOf(messages), messages, g)
    && OrderedBlocks(g, NodeOrder(locale), IsMessage, blocks)
    && ordered == MessagesIn(VisibleOf(IsMessage, blocks))
  }

  /** `ordered` is the order of the conversation; `g` above is the thread graph and `blocks` its listing by cycles. */
  ghost predicate ConversationOrder(normalize: string -> seq<string>, locale: (string, string) -> int, messages: seq<Message>,
                                    ordered: seq<Message>) {
    exists g, blocks :: OrdersConversation(normalize, locale, messages, ordered, g, blocks)
  }

  method OrderConversationMessages(messages: seq<Message>, normalize: string -> seq<string>, locale: (string, string) -> int)
    returns (ordered: seq<Message>)
    requires TotalOrder(locale)
    ensures ConversationOrder(normalize, locale, messages, ordered)
  {
    hide *;
    var graph := BuildGraph(messages, normalize);
    NodeOrderIsTotal(locale);
    ThreadGraphWellFormed(normalize, TablesOf(messages), messages, graph);
    ghost var blocks;
    var nodes;
    nodes, blocks := OrderDirectedGraph(graph, NodeOrder(locale), IsMessage);
    ordered := MessagesIn(nodes);
    OrdersConversationFrom(normalize, locale, messages, ordered, graph, blocks);
  }

  lemma ThreadGraphWellFormed(normalize: string -> seq<string>, tables: Tables, messages: seq<Message>, g: Graph<OrderNode>)
    requires ThreadGraph(normalize, tables, messages, g)
    ensures WellFormed(g)
  {
  }

  lemma OrdersConversationFrom(normalize: string -> seq<string>, locale: (string, string) -> int, messages: seq<Message>,
                               ordered: seq<Message>, g: Graph<OrderNode>, blocks: seq<seq<OrderNode>>)
    requires ThreadGraph(normalize, TablesOf(messages), messages, g)
    requires OrderedBlocks(g, NodeOrder(locale), IsMessage, blocks) && ordered == MessagesIn(VisibleOf(IsMessage, blocks))
    ensures ConversationOrder(normalize, locale, messages, ordered)
  {
    assert OrdersConversation(normalize, locale, messages, ordered, g, blocks);
  }
}
