/** What a reader of a conversation can rely on: nothing is lost or repeated, replies follow what they answer,
    and the order in which the messages were loaded does not show. */
module ConversationLaws {
  import opened Orders
  import opened Graphs
  import opened PriorityQueue
  import opened GreedyOrder
  import opened Conversation

  ghost predicate DistinctIds(messages: seq<Message>) {
    forall i, j :: 0 <= i < |messages| && 0 <= j < |messages| && messages[i].id == messages[j].id ==> i == j
  }

  ghost predicate DistinctMessageIds(messages: seq<Message>) {
    forall m, n :: m in messages && n in messages && HasMessageId(m) && HasMessageId(n) && m.messageId == n.messageId ==> m == n
  }

  ghost predicate DistinctIdentities(messages: seq<Message>) {
    forall m, n :: m in messages && n in messages && m.identityKey == n.identityKey ==> m == n
  }

  lemma {:induction false} ByIdExact(messages: seq<Message>, m: Message)
    requires DistinctIds(messages) && m in messages
    ensures m.id in ById(messages) && ById(messages)[m.id] == m
  {
    var n := |messages| - 1;
    if m != messages[n] {
      var i :| 0 <= i < |messages| && messages[i] == m;
      assert messages[..n][i] == m;
      ByIdExact(messages[..n], m);
    }
  }

  /** With distinct ids a message's node is the message itself. */
  lemma SelfExact(messages: seq<Message>, m: Message)
    requires DistinctIds(messages) && m in messages
    ensures Self(TablesOf(messages), m) == MessageNode(m)
  {
    ByIdExact(messages, m);
  }

  lemma {:induction false} ByMessageIdExact(byId: map<string, Message>, messages: seq<Message>, k: string)
    requires forall i :: 0 <= i < |messages| ==> messages[i].id in byId && byId[messages[i].id] == messages[i]
    requires DistinctMessageIds(messages)
    ensures k in ByMessageId(byId, messages) <==> exists m :: m in messages && HasMessageId(m) && m.messageId.value == k
    ensures k in ByMessageId(byId, messages) ==>
      var m := ByMessageId(byId, messages)[k]; m in messages && HasMessageId(m) && m.messageId.value == k
  {
    if messages != [] {
      var n := |messages| - 1;
      assert forall m :: m in messages <==> m in messages[..n] || m == messages[n];
      ByMessageIdExact(byId, messages[..n], k);
    }
  }

  lemma ByIdIndependent(ms: seq<Message>, ns: seq<Message>)
    requires DistinctIds(ms) && DistinctIds(ns) && forall m :: m in ms <==> m in ns
    ensures ById(ms) == ById(ns)
  {
    var s, t := ById(ms), ById(ns);
    forall k
      ensures k in s <==> k in t
      ensures k in s ==> s[k] == t[k]
    {
      if k in s { ByIdExact(ns, s[k]); }
      if k in t { ByIdExact(ms, t[k]); }
    }
  }

  lemma ByMessageIdIndependent(byId: map<string, Message>, ms: seq<Message>, ns: seq<Message>)
    requires forall i :: 0 <= i < |ms| ==> ms[i].id in byId && byId[ms[i].id] == ms[i]
    requires forall i :: 0 <= i < |ns| ==> ns[i].id in byId && byId[ns[i].id] == ns[i]
    requires DistinctMessageIds(ms) && forall m :: m in ms <==> m in ns
    ensures ByMessageId(byId, ms) == ByMessageId(byId, ns)
  {
    var s, t := ByMessageId(byId, ms), ByMessageId(byId, ns);
    forall k
      ensures k in s <==> k in t
      ensures k in s ==> s[k] == t[k]
    {
      ByMessageIdExact(byId, ms, k);
      ByMessageIdExact(byId, ns, k);
    }
  }

  /** The lookup tables do not depend on the order of the messages. */
  lemma TablesIndependent(ms: seq<Message>, ns: seq<Message>)
    requires DistinctIds(ms) && DistinctIds(ns) && DistinctMessageIds(ms)
    requires forall m :: m in ms <==> m in ns
    ensures TablesOf(ms) == TablesOf(ns)
  {
    ByIdIndependent(ms, ns);
    forall i | 0 <= i < |ms| ensures ms[i].id in ById(ms) && ById(ms)[ms[i].id] == ms[i] { ByIdExact(ms, ms[i]); }
    forall i | 0 <= i < |ns| ensures ns[i].id in ById(ns) && ById(ns)[ns[i].id] == ns[i] { ByIdExact(ns, ns[i]); }
    ByMessageIdIndependent(ById(ms), ms, ns);
  }

  lemma ThreadGraphsAgree(normalize: string -> seq<string>, ms: seq<Message>, ns: seq<Message>, g: Graph<OrderNode>, h: Graph<OrderNode>)
    requires DistinctIds(ms) && DistinctIds(ns) && DistinctMessageIds(ms)
    requires forall m :: m in ms <==> m in ns
    requires ThreadGraph(normalize, TablesOf(ms), ms, g) && ThreadGraph(normalize, TablesOf(ns), ns, h)
    ensures SameRelation(g, h)
  {
    TablesIndependent(ms, ns);
    var tables := TablesOf(ms);
    forall n
      ensures n in g.nodes <==> n in h.nodes
    {
      assert Mentioned(normalize, tables, ms, n) <==> Mentioned(normalize, tables, ns, n);
    }
    forall u, v
      ensures Edge(g, u, v) <==> Edge(h, u, v)
    {
      assert Precedes(normalize, tables, ms, u, v) <==> Precedes(normalize, tables, ns, u, v);
    }
  }

  /** The nodes of a thread graph that are messages are exactly the messages of the conversation. */
  lemma MessageNodes(normalize: string -> seq<string>, messages: seq<Message>, g: Graph<OrderNode>, m: Message)
    requires DistinctIds(messages) && ThreadGraph(normalize, TablesOf(messages), messages, g)
    ensures MessageNode(m) in g.nodes <==> m in messages
  {
    var tables := TablesOf(messages);
    if m in messages {
      SelfExact(messages, m);
      assert MessageNode(m) in NodesOf(normalize, tables.byMessageId, Self(tables, m), m);
      assert Mentioned(normalize, tables, messages, MessageNode(m));
    }
    if MessageNode(m) in g.nodes {
      assert Mentioned(normalize, tables, messages, MessageNode(m));
      var n :| n in messages && MessageNode(m) in NodesOf(normalize, tables.byMessageId, Self(tables, n), n);
      SelfExact(messages, n);
      NodesAreMessages(normalize, tables, n, m);
    }
  }

  lemma NodesAreMessages(normalize: string -> seq<string>, tables: Tables, n: Message, m: Message)
    requires MessageNode(m) in NodesOf(normalize, tables.byMessageId, Self(tables, n), n)
    ensures MessageNode(m) == Self(tables, n) || m in tables.byMessageId.Values
  {
    var sequences := SequencesOf(n);
    if MessageNode(m) in SequenceNodes(tables.byMessageId, sequences) {
      SequenceNodesAreMessages(tables.byMessageId, sequences, m);
    }
  }

  lemma {:induction false} SequenceNodesAreMessages(byMessageId: map<string, Message>, sequences: seq<seq<string>>, m: Message)
    requires MessageNode(m) in SequenceNodes(byMessageId, sequences)
    ensures m in byMessageId.Values
  {
    var n := |sequences| - 1;
    if MessageNode(m) in SequenceNodes(byMessageId, sequences[..n]) {
      SequenceNodesAreMessages(byMessageId, sequences[..n], m);
    }
  }

  lemma {:induction false} MessagesInPointwise(nodes: seq<OrderNode>)
    requires forall n :: n in nodes ==> n.MessageNode?
    ensures |MessagesIn(nodes)| == |nodes|
    ensures forall i :: 0 <= i < |nodes| ==> nodes[i] == MessageNode(MessagesIn(nodes)[i])
  {
    if nodes != [] {
      MessagesInPointwise(nodes[..|nodes| - 1]);
      assert nodes[|nodes| - 1] in nodes;
    }
  }

  /** The position of each message in the result is the position of its node in the listing. */
  lemma OrderedNodes(normalize: string -> seq<string>, locale: (string, string) -> int, messages: seq<Message>,
                     ordered: seq<Message>, g: Graph<OrderNode>, blocks: seq<seq<OrderNode>>)
    requires OrdersConversation(normalize, locale, messages, ordered, g, blocks)
    ensures RespectsReachability(g, IsMessage, VisibleOf(IsMessage, blocks))
    ensures |ordered| == |VisibleOf(IsMessage, blocks)|
    ensures forall i :: 0 <= i < |ordered| ==> VisibleOf(IsMessage, blocks)[i] == MessageNode(ordered[i])
  {
    var nodes := VisibleOf(IsMessage, blocks);
    GreedyRespectsReachability(g, NodeOrder(locale), IsMessage, blocks);
    MessagesInPointwise(nodes);
  }

  /** Every message comes out exactly once and nothing else does. */
  lemma EveryMessageOnce(normalize: string -> seq<string>, locale: (string, string) -> int, messages: seq<Message>, ordered: seq<Message>)
    requires DistinctIds(messages) && ConversationOrder(normalize, locale, messages, ordered)
    ensures Distinct(ordered) && forall m :: m in ordered <==> m in messages
  {
    hide OrderedBlocks, ThreadGraph;
    var g, blocks :| OrdersConversation(normalize, locale, messages, ordered, g, blocks);
    var nodes := VisibleOf(IsMessage, blocks);
    OrderedNodes(normalize, locale, messages, ordered, g, blocks);
    forall m
      ensures m in ordered <==> m in messages
    {
      MessageNodes(normalize, messages, g, m);
      if m in messages {
        assert MessageNode(m) in nodes;
        var i :| 0 <= i < |nodes| && nodes[i] == MessageNode(m);
        assert ordered[i] == m;
      }
      if m in ordered {
        var i :| 0 <= i < |ordered| && ordered[i] == m;
        assert nodes[i] in nodes;
      }
    }
    forall i, j | 0 <= i < j < |ordered|
      ensures ordered[i] != ordered[j]
    {
      assert nodes[i] != nodes[j];
    }
  }

  lemma SameThreads(normalize: string -> seq<string>, messages: seq<Message>, g: Graph<OrderNode>, h: Graph<OrderNode>)
    requires ThreadGraph(normalize, TablesOf(messages), messages, g) && ThreadGraph(normalize, TablesOf(messages), messages, h)
    ensures SameRelation(g, h)
  {
    var tables := TablesOf(messages);
    assert forall n :: n in g.nodes <==> Mentioned(normalize, tables, messages, n);
    assert forall u, v :: Edge(g, u, v) <==> Precedes(normalize, tables, messages, u, v);
  }

  /** A message that leads to another one without being led back to by it comes first. */
  lemma AncestorsFirst(normalize: string -> seq<string>, locale: (string, string) -> int, messages: seq<Message>,
                       ordered: seq<Message>, g: Graph<OrderNode>, a: nat, b: nat)
    requires ConversationOrder(normalize, locale, messages, ordered) && a < |ordered| && b < |ordered|
    requires ThreadGraph(normalize, TablesOf(messages), messages, g)
    requires Reaches(g, MessageNode(ordered[a]), MessageNode(ordered[b])) && !Reaches(g, MessageNode(ordered[b]), MessageNode(ordered[a]))
    ensures a < b
  {
    hide OrderedBlocks, ThreadGraph, Reaches;
    var h, blocks :| OrdersConversation(normalize, locale, messages, ordered, h, blocks);
    OrderedNodes(normalize, locale, messages, ordered, h, blocks);
    SameThreads(normalize, messages, g, h);
    SameRelationReaches(g, h, MessageNode(ordered[a]), MessageNode(ordered[b]));
    SameRelationReaches(h, g, MessageNode(ordered[b]), MessageNode(ordered[a]));
  }

  /** In particular a reply follows the message its In-Reply-To field names, unless the fields form a cycle. */
  lemma ReplyFollowsParent(normalize: string -> seq<string>, locale: (string, string) -> int, messages: seq<Message>,
                           ordered: seq<Message>, g: Graph<OrderNode>, a: nat, b: nat)
    requires DistinctIds(messages) && DistinctMessageIds(messages)
    requires ConversationOrder(normalize, locale, messages, ordered) && a < |ordered| && b < |ordered|
    requires ThreadGraph(normalize, TablesOf(messages), messages, g)
    requires var parent, reply := ordered[a], ordered[b];
      && HasMessageId(parent) && reply.inReplyTo.Some? && parent.messageId.value in normalize(reply.inReplyTo.value)
      && !Reaches(g, MessageNode(reply), MessageNode(parent))
    ensures a < b
  {
    hide OrderedBlocks, Reaches, OrdersConversation;
    var parent, reply, tables := ordered[a], ordered[b], TablesOf(messages);
    EveryMessageOnce(normalize, locale, messages, ordered);
    assert parent in messages && reply in messages;
    SelfExact(messages, reply);
    ReferenceFindsMessage(messages, parent);
    assert parent.messageId.value in Parents(normalize, reply.inReplyTo);
    ReachesSelf(g, MessageNode(parent));
    assert (MessageNode(parent), MessageNode(reply)) in PairsOf(normalize, tables.byMessageId, Self(tables, reply), reply);
    assert Precedes(normalize, tables, messages, MessageNode(parent), MessageNode(reply));
    ReachesEdge(g, MessageNode(parent), MessageNode(reply));
    AncestorsFirst(normalize, locale, messages, ordered, g, a, b);
  }

  lemma ReferenceFindsMessage(messages: seq<Message>, m: Message)
    requires DistinctIds(messages) && DistinctMessageIds(messages) && m in messages && HasMessageId(m)
    ensures NodeFor(TablesOf(messages).byMessageId, m.messageId.value) == MessageNode(m)
  {
    forall i | 0 <= i < |messages|
      ensures messages[i].id in ById(messages) && ById(messages)[messages[i].id] == messages[i]
    {
      ByIdExact(messages, messages[i]);
    }
    ByMessageIdExact(ById(messages), messages, m.messageId.value);
  }

  lemma NodesSeparated(normalize: string -> seq<string>, locale: (string, string) -> int, messages: seq<Message>, g: Graph<OrderNode>)
    requires TotalOrder(locale) && DistinctIds(messages) && DistinctIdentities(messages)
    requires ThreadGraph(normalize, TablesOf(messages), messages, g)
    ensures StrictOn(NodeOrder(locale), iset n | n in g.nodes)
  {
    forall a, b | a in g.nodes && b in g.nodes && CompareNodes(locale, a, b) == 0
      ensures a == b
    {
      if a.MessageNode? && b.MessageNode? {
        MessageNodes(normalize, messages, g, a.message);
        MessageNodes(normalize, messages, g, b.message);
      }
    }
  }

  /** The order of a conversation is a function of the set of its messages: any two permutations of the input
      give the same sequence, so the queue's insertion counter never decides. */
  lemma ConversationOrderIndependent(normalize: string -> seq<string>, locale: (string, string) -> int,
                                     ms: seq<Message>, ns: seq<Message>, ordered: seq<Message>, reordered: seq<Message>)
    requires TotalOrder(locale)
    requires DistinctIds(ms) && DistinctMessageIds(ms) && DistinctIdentities(ms)
    requires DistinctIds(ns) && forall m :: m in ms <==> m in ns
    requires ConversationOrder(normalize, locale, ms, ordered) && ConversationOrder(normalize, locale, ns, reordered)
    ensures ordered == reordered
  {
    hide OrderedBlocks;
    var g, bs :| OrdersConversation(normalize, locale, ms, ordered, g, bs);
    var h, cs :| OrdersConversation(normalize, locale, ns, reordered, h, cs);
    NodeOrderIsTotal(locale);
    NodesSeparated(normalize, locale, ms, g);
    ThreadGraphsAgree(normalize, ms, ns, g, h);
    GreedyOrderUnique(g, h, NodeOrder(locale), IsMessage, bs, cs);
  }
}
