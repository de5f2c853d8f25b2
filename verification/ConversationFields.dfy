/** The order of a conversation in terms of the fields of its messages alone: what follows from the ids they list and from
    their dates, without the graph, the nodes or the comparator. */
module ConversationFields {
  import opened Orders
  import opened Graphs
  import opened PriorityQueue
  import opened GreedyOrder
  import opened GreedyLaws
  import opened Conversation
  import opened ConversationLaws

  ghost predicate HasId(m: Message, id: string) {
    m.messageId == Some(id) && id != ""
  }

  /** A list of ancestors that the message brings, oldest first: its sequences, or else its References field. */
  ghost predicate Brings(m: Message, sequence: seq<string>) {
    match m.referenceSequences
    case Some(sequences) => sequence in sequences
    case None => sequence == m.references
  }

  ghost predicate AnswersTo(normalize: string -> seq<string>, m: Message, id: string) {
    || (m.inReplyTo.Some? && id in normalize(m.inReplyTo.value))
    || (m.threadingEdges.Some? && id in m.threadingEdges.value)
  }

  /** The message lists the id in one of its fields. */
  ghost predicate ListsId(normalize: string -> seq<string>, m: Message, id: string) {
    AnswersTo(normalize, m, id) || exists sequence :: Brings(m, sequence) && id in sequence
  }

  /** The ids `x` and `y`, other than the message's own, first appear in this order in a list of ancestors. */
  ghost predicate ListedInOrder(m: Message, sequence: seq<string>, x: string, y: string) {
    && Brings(m, sequence) && !HasId(m, x) && !HasId(m, y)
    && exists i, j :: FirstAt(sequence, i, x) && FirstAt(sequence, j, y) && i < j
  }

  ghost predicate FirstAt(sequence: seq<string>, i: int, x: string) {
    0 <= i < |sequence| && sequence[i] == x && forall k :: 0 <= k < i ==> sequence[k] != x
  }

  /** The fields form no cycle: the ids can be ranked so that every message ranks above the other ids it lists, and its
      lists of ancestors ascend. */
  ghost predicate Ascends(normalize: string -> seq<string>, messages: seq<Message>, rank: string -> int) {
    && (forall m, x, y :: m in messages && HasId(m, y) && ListsId(normalize, m, x) && x != y ==> rank(x) < rank(y))
    && (forall m, sequence, x, y :: m in messages && ListedInOrder(m, sequence, x, y) ==> rank(x) < rank(y))
  }

  // The ids of nodes.

  function IdOf(node: OrderNode): Option<string> {
    match node
    case MessageNode(m) => if HasMessageId(m) then m.messageId else None
    case ReferenceNode(id) => Some(id)
  }

  ghost predicate IdsFound(byMessageId: map<string, Message>) {
    forall id {:trigger NodeFor(byMessageId, id)} :: IdOf(NodeFor(byMessageId, id)) == Some(id)
  }

  lemma AllIdsFound(messages: seq<Message>)
    requires DistinctIds(messages) && DistinctMessageIds(messages)
    ensures IdsFound(TablesOf(messages).byMessageId)
    ensures forall m, id :: m in messages && HasId(m, id) ==> NodeFor(TablesOf(messages).byMessageId, id) == MessageNode(m)
  {
    var byMessageId := TablesOf(messages).byMessageId;
    forall i | 0 <= i < |messages|
      ensures messages[i].id in ById(messages) && ById(messages)[messages[i].id] == messages[i]
    {
      ByIdExact(messages, messages[i]);
    }
    forall id: string
      ensures IdOf(NodeFor(byMessageId, id)) == Some(id)
    {
      ByMessageIdExact(ById(messages), messages, id);
    }
    forall m, id | m in messages && HasId(m, id)
      ensures NodeFor(byMessageId, id) == MessageNode(m)
    {
      ReferenceFindsMessage(messages, m);
    }
  }

  // Lists of ancestors.

  lemma {:induction false} UniqueFirst(s: seq<string>, i: nat, j: nat)
    requires i < j < |Unique(s)|
    ensures exists k, l :: FirstAt(s, k, Unique(s)[i]) && FirstAt(s, l, Unique(s)[j]) && k < l
  {
    var n := |s| - 1;
    var front := Unique(s[..n]);
    if j < |front| {
      UniqueFirst(s[..n], i, j);
      var k, l :| FirstAt(s[..n], k, front[i]) && FirstAt(s[..n], l, front[j]) && k < l;
      assert FirstAt(s, k, Unique(s)[i]) && FirstAt(s, l, Unique(s)[j]);
    } else {
      assert Unique(s)[j] == s[n] && s[n] !in s[..n];
      assert forall k :: 0 <= k < n ==> s[k] == s[..n][k];
      assert FirstAt(s, n, s[n]);
      var k := FirstOf(s[..n], front[i]);
      assert FirstAt(s, k, front[i]);
    }
  }

  lemma {:induction false} FirstOf(s: seq<string>, x: string) returns (k: nat)
    requires x in s
    ensures FirstAt(s, k, x)
  {
    k := 0;
    while s[k] != x
      invariant k < |s| && forall l :: 0 <= l < k ==> s[l] != x
      decreases |s| - k
    {
      k := k + 1;
    }
  }

  lemma {:induction false} UniqueKeepsOrder(s: seq<string>, k: nat, l: nat) returns (i: nat, j: nat)
    requires k < l < |s| && FirstAt(s, k, s[k]) && FirstAt(s, l, s[l])
    ensures i < j < |Unique(s)| && Unique(s)[i] == s[k] && Unique(s)[j] == s[l]
  {
    var n := |s| - 1;
    if l < n {
      assert FirstAt(s[..n], k, s[..n][k]) && FirstAt(s[..n], l, s[..n][l]);
      i, j := UniqueKeepsOrder(s[..n], k, l);
    } else {
      assert s[n] !in s[..n] && s[k] in s[..n];
      i :| 0 <= i < |Unique(s[..n])| && Unique(s[..n])[i] == s[k];
      j := |Unique(s[..n])|;
    }
  }

  /** The ancestors are the nodes of the references other than the message itself, in their order. */
  lemma {:induction false} AncestorsInOrder(byMessageId: map<string, Message>, references: seq<string>, self: OrderNode, i: nat, j: nat)
    returns (p: nat, q: nat)
    requires i < j < |references| && NodeFor(byMessageId, references[i]) != self && NodeFor(byMessageId, references[j]) != self
    ensures var ancestors := Ancestors(byMessageId, references, self);
      p < q < |ancestors| && ancestors[p] == NodeFor(byMessageId, references[i]) && ancestors[q] == NodeFor(byMessageId, references[j])
  {
    var n := |references| - 1;
    if j < n {
      p, q := AncestorsInOrder(byMessageId, references[..n], self, i, j);
    } else {
      p := AncestorAt(byMessageId, references[..n], self, i);
      q := |Ancestors(byMessageId, references[..n], self)|;
    }
  }

  lemma {:induction false} AncestorAt(byMessageId: map<string, Message>, references: seq<string>, self: OrderNode, i: nat) returns (p: nat)
    requires i < |references| && NodeFor(byMessageId, references[i]) != self
    ensures var ancestors := Ancestors(byMessageId, references, self);
      p < |ancestors| && ancestors[p] == NodeFor(byMessageId, references[i])
  {
    var n := |references| - 1;
    if i < n {
      p := AncestorAt(byMessageId, references[..n], self, i);
    } else {
      p := |Ancestors(byMessageId, references[..n], self)|;
    }
  }

  /** ... and each ancestor is the node of a reference. */
  lemma {:induction false} AncestorFrom(byMessageId: map<string, Message>, references: seq<string>, self: OrderNode, p: nat) returns (i: nat)
    requires p < |Ancestors(byMessageId, references, self)|
    ensures i < |references| && Ancestors(byMessageId, references, self)[p] == NodeFor(byMessageId, references[i]) != self
  {
    var n := |references| - 1;
    if p < |Ancestors(byMessageId, references[..n], self)| {
      i := AncestorFrom(byMessageId, references[..n], self, p);
    } else {
      i := n;
    }
  }

  lemma {:induction false} LinkFrom(byMessageId: map<string, Message>, references: seq<string>, self: OrderNode, u: OrderNode, v: OrderNode)
    returns (i: nat, j: nat)
    requires (u, v) in LinkPairs(Ancestors(byMessageId, references, self))
    ensures i < j < |references| && u == NodeFor(byMessageId, references[i]) != self && v == NodeFor(byMessageId, references[j]) != self
  {
    if references == [] {
      assert false;
    } else {
      var n := |references| - 1;
      var before := Ancestors(byMessageId, references[..n], self);
      assert references[..n + 1] == references;
      AncestorStep(byMessageId, references, self, n);
      if (u, v) in LinkPairs(before) {
        i, j := LinkFrom(byMessageId, references[..n], self, u, v);
      } else {
        i := AncestorFrom(byMessageId, references[..n], self, |before| - 1);
        j := n;
      }
    }
  }

  lemma {:induction false} LinksReach(g: Graph<OrderNode>, ancestors: seq<OrderNode>, p: nat, q: nat)
    requires p <= q < |ancestors| && forall u, v :: (u, v) in LinkPairs(ancestors) ==> Edge(g, u, v)
    ensures Reaches(g, ancestors[p], ancestors[q])
  {
    hide Reaches;
    if p == q {
      ReachesSelf(g, ancestors[p]);
    } else {
      var n := |ancestors| - 1;
      var front := ancestors[..n];
      if q < n {
        LinksReach(g, front, p, q);
      } else {
        LinksReach(g, front, p, n - 1);
        assert (ancestors[n - 1], ancestors[n]) in LinkPairs(ancestors);
        ReachesEdge(g, ancestors[n - 1], ancestors[n]);
        ReachesTransitive(g, ancestors[p], ancestors[n - 1], ancestors[n]);
      }
    }
  }

  lemma {:induction false} PairOfSequence(byMessageId: map<string, Message>, sequences: seq<seq<string>>, self: OrderNode, u: OrderNode, v: OrderNode)
    ensures (u, v) in SequencePairs(byMessageId, sequences, self) <==>
      exists s :: s in sequences && (u, v) in ChainPairs(Ancestors(byMessageId, Unique(s), self), self)
  {
    if sequences != [] {
      hide ChainPairs, Ancestors, Unique;
      var n := |sequences| - 1;
      PairOfSequence(byMessageId, sequences[..n], self, u, v);
      if s :| s in sequences && (u, v) in ChainPairs(Ancestors(byMessageId, Unique(s), self), self) {
        assert s in sequences[..n] || s == sequences[n];
      }
      if s :| s in sequences[..n] && (u, v) in ChainPairs(Ancestors(byMessageId, Unique(s), self), self) {
        assert s in sequences;
      }
      assert sequences[n] in sequences;
    }
  }

  // What the fields of one message put into the graph.

  lemma AnswerEdge(normalize: string -> seq<string>, messages: seq<Message>, g: Graph<OrderNode>, m: Message, x: string)
    requires DistinctIds(messages) && m in messages && ThreadGraph(normalize, TablesOf(messages), messages, g)
    requires AnswersTo(normalize, m, x) && NodeFor(TablesOf(messages).byMessageId, x) != MessageNode(m)
    ensures Edge(g, NodeFor(TablesOf(messages).byMessageId, x), MessageNode(m))
  {
    hide TablesOf, NodeFor, WellFormed, SequencePairs;
    var tables := TablesOf(messages);
    SelfExact(messages, m);
    var u := NodeFor(tables.byMessageId, x);
    assert x in Parents(normalize, m.inReplyTo) || x in Unique(OrEmpty(m.threadingEdges));
    assert (u, MessageNode(m)) in PairsOf(normalize, tables.byMessageId, Self(tables, m), m);
    assert Precedes(normalize, tables, messages, u, MessageNode(m));
  }

  lemma ChainEdge(normalize: string -> seq<string>, messages: seq<Message>, g: Graph<OrderNode>, m: Message, sequence: seq<string>,
                  u: OrderNode, v: OrderNode)
    requires DistinctIds(messages) && m in messages && ThreadGraph(normalize, TablesOf(messages), messages, g)
    requires Brings(m, sequence)
    requires (u, v) in ChainPairs(Ancestors(TablesOf(messages).byMessageId, Unique(sequence), MessageNode(m)), MessageNode(m))
    ensures Edge(g, u, v)
  {
    hide TablesOf, Ancestors, ChainPairs, WellFormed, ParentPairs, SequencePairs;
    var tables := TablesOf(messages);
    SelfExact(messages, m);
    assert sequence in SequencesOf(m);
    PairOfSequence(tables.byMessageId, SequencesOf(m), MessageNode(m), u, v);
    assert (u, v) in PairsOf(normalize, tables.byMessageId, Self(tables, m), m);
    assert Precedes(normalize, tables, messages, u, v);
  }

  /** An edge comes from an answer, from a list that ends in the message, or from two neighbours in a list. */
  lemma EdgeFrom(normalize: string -> seq<string>, messages: seq<Message>, g: Graph<OrderNode>, u: OrderNode, v: OrderNode)
    returns (m: Message, x: string, y: string)
    requires DistinctIds(messages) && DistinctMessageIds(messages) && ThreadGraph(normalize, TablesOf(messages), messages, g) && Edge(g, u, v)
    ensures m in messages && u == NodeFor(TablesOf(messages).byMessageId, x) != MessageNode(m) && ListsId(normalize, m, x)
    ensures v == MessageNode(m) || (v == NodeFor(TablesOf(messages).byMessageId, y) && exists sequence :: ListedInOrder(m, sequence, x, y))
  {
    hide TablesOf, ThreadGraph, DistinctMessageIds, NodeFor, ChainPairs, Ancestors, SequencePairs, DistinctIds, Edge;
    var tables := TablesOf(messages);
    EdgePrecedes(normalize, messages, g, u, v);
    m :| m in messages && (u, v) in PairsOf(normalize, tables.byMessageId, Self(tables, m), m);
    SelfExact(messages, m);
    var self := MessageNode(m);
    y := "";
    if (u, v) in ParentPairs(tables.byMessageId, Parents(normalize, m.inReplyTo), self) {
      x :| x in Parents(normalize, m.inReplyTo) && u == NodeFor(tables.byMessageId, x);
      assert AnswersTo(normalize, m, x);
    } else if (u, v) in ParentPairs(tables.byMessageId, Unique(OrEmpty(m.threadingEdges)), self) {
      x :| x in Unique(OrEmpty(m.threadingEdges)) && u == NodeFor(tables.byMessageId, x);
      assert AnswersTo(normalize, m, x);
    } else {
      PairOfSequence(tables.byMessageId, SequencesOf(m), self, u, v);
      var s :| s in SequencesOf(m) && (u, v) in ChainPairs(Ancestors(tables.byMessageId, Unique(s), self), self);
      assert Brings(m, s);
      x, y := ChainFrom(messages, m, s, u, v);
      assert ListsId(normalize, m, x);
    }
  }

  lemma EdgePrecedes(normalize: string -> seq<string>, messages: seq<Message>, g: Graph<OrderNode>, u: OrderNode, v: OrderNode)
    requires ThreadGraph(normalize, TablesOf(messages), messages, g) && Edge(g, u, v)
    ensures Precedes(normalize, TablesOf(messages), messages, u, v)
  {
  }

  lemma ChainFrom(messages: seq<Message>, m: Message, sequence: seq<string>, u: OrderNode, v: OrderNode)
    returns (x: string, y: string)
    requires DistinctIds(messages) && DistinctMessageIds(messages) && m in messages && Brings(m, sequence)
    requires (u, v) in ChainPairs(Ancestors(TablesOf(messages).byMessageId, Unique(sequence), MessageNode(m)), MessageNode(m))
    ensures x in sequence && u == NodeFor(TablesOf(messages).byMessageId, x) != MessageNode(m)
    ensures v == MessageNode(m) || (v == NodeFor(TablesOf(messages).byMessageId, y) && ListedInOrder(m, sequence, x, y))
  {
    hide TablesOf, NodeFor, Ancestors, LinkPairs, DistinctMessageIds, DistinctIds;
    var byMessageId, self, references := TablesOf(messages).byMessageId, MessageNode(m), Unique(sequence);
    AllIdsFound(messages);
    y := "";
    var ancestors := Ancestors(byMessageId, references, self);
    if (u, v) in LinkPairs(ancestors) {
      var i, j := LinkFrom(byMessageId, references, self, u, v);
      x, y := references[i], references[j];
      UniqueFirst(sequence, i, j);
      assert ListedInOrder(m, sequence, x, y);
    } else {
      var i := AncestorFrom(byMessageId, references, self, |ancestors| - 1);
      x := references[i];
    }
    assert x in references;
  }

  // Without a cycle.

  /** Along an edge, and so along a path, ids ascend; nothing leads on from a message without an id. */
  ghost predicate Below(rank: string -> int, u: OrderNode, v: OrderNode) {
    IdOf(u).Some? && (IdOf(v).Some? ==> rank(IdOf(u).value) < rank(IdOf(v).value))
  }

  lemma EdgeAscends(normalize: string -> seq<string>, messages: seq<Message>, rank: string -> int, g: Graph<OrderNode>, u: OrderNode, v: OrderNode)
    requires DistinctIds(messages) && DistinctMessageIds(messages) && ThreadGraph(normalize, TablesOf(messages), messages, g)
    requires Ascends(normalize, messages, rank) && Edge(g, u, v)
    ensures Below(rank, u, v)
  {
    hide TablesOf, ThreadGraph, NodeFor, ListsId, ListedInOrder, DistinctIds, DistinctMessageIds, Edge;
    var m, x, y := EdgeFrom(normalize, messages, g, u, v);
    AllIdsFound(messages);
    assert IdOf(u) == Some(x);
    if v == MessageNode(m) {
      if IdOf(v).Some? {
        assert HasId(m, IdOf(v).value);
        assert x != IdOf(v).value;
      }
    } else {
      var sequence :| ListedInOrder(m, sequence, x, y);
      assert IdOf(v) == Some(y);
    }
  }

  lemma {:induction false} PathAscends(normalize: string -> seq<string>, messages: seq<Message>, rank: string -> int, g: Graph<OrderNode>,
                                       p: seq<OrderNode>, k: nat)
    requires DistinctIds(messages) && DistinctMessageIds(messages) && ThreadGraph(normalize, TablesOf(messages), messages, g)
    requires Ascends(normalize, messages, rank) && IsPath(g, p) && 0 < k < |p|
    ensures Below(rank, p[0], p[k])
  {
    hide TablesOf, ThreadGraph, Ascends, DistinctIds, DistinctMessageIds, Edge;
    assert Step(g, p, k);
    EdgeAscends(normalize, messages, rank, g, p[k - 1], p[k]);
    if k > 1 { PathAscends(normalize, messages, rank, g, p, k - 1); }
  }

  lemma NeverBack(normalize: string -> seq<string>, messages: seq<Message>, rank: string -> int, g: Graph<OrderNode>, u: OrderNode, v: OrderNode)
    requires DistinctIds(messages) && DistinctMessageIds(messages) && ThreadGraph(normalize, TablesOf(messages), messages, g)
    requires Ascends(normalize, messages, rank) && Reaches(g, u, v) && u != v
    ensures !Reaches(g, v, u)
  {
    hide TablesOf, ThreadGraph, Ascends, DistinctIds, DistinctMessageIds, Step;
    var p :| IsPath(g, p) && p[0] == u && p[|p| - 1] == v;
    PathAscends(normalize, messages, rank, g, p, |p| - 1);
    if Reaches(g, v, u) {
      var q :| IsPath(g, q) && q[0] == v && q[|q| - 1] == u;
      PathAscends(normalize, messages, rank, g, q, |q| - 1);
    }
  }

  // Who comes before whom.

  /** A list of ancestors leads in its order, and to the message that brings it. */
  lemma ListReaches(normalize: string -> seq<string>, messages: seq<Message>, g: Graph<OrderNode>, m: Message, sequence: seq<string>, x: string)
    requires DistinctIds(messages) && DistinctMessageIds(messages) && m in messages && ThreadGraph(normalize, TablesOf(messages), messages, g)
    requires Brings(m, sequence) && x in sequence && NodeFor(TablesOf(messages).byMessageId, x) != MessageNode(m)
    ensures Reaches(g, NodeFor(TablesOf(messages).byMessageId, x), MessageNode(m))
  {
    hide TablesOf, NodeFor, Ancestors, LinkPairs, ThreadGraph, Reaches, DistinctIds, DistinctMessageIds, Edge;
    var byMessageId, self, references := TablesOf(messages).byMessageId, MessageNode(m), Unique(sequence);
    var ancestors := Ancestors(byMessageId, references, self);
    assert x in references;
    var i :| 0 <= i < |references| && references[i] == x;
    var p := AncestorAt(byMessageId, references, self, i);
    forall u, v | (u, v) in ChainPairs(ancestors, self)
      ensures Edge(g, u, v)
    {
      ChainEdge(normalize, messages, g, m, sequence, u, v);
    }
    LinksReach(g, ancestors, p, |ancestors| - 1);
    assert (ancestors[|ancestors| - 1], self) in ChainPairs(ancestors, self);
    ReachesEdge(g, ancestors[|ancestors| - 1], self);
    ReachesTransitive(g, ancestors[p], ancestors[|ancestors| - 1], self);
  }

  lemma OrderReaches(normalize: string -> seq<string>, messages: seq<Message>, g: Graph<OrderNode>, m: Message, sequence: seq<string>,
                     x: string, y: string)
    requires DistinctIds(messages) && DistinctMessageIds(messages) && m in messages && ThreadGraph(normalize, TablesOf(messages), messages, g)
    requires ListedInOrder(m, sequence, x, y)
    ensures Reaches(g, NodeFor(TablesOf(messages).byMessageId, x), NodeFor(TablesOf(messages).byMessageId, y))
  {
    hide TablesOf, NodeFor, Ancestors, LinkPairs, ThreadGraph, Reaches, DistinctIds, DistinctMessageIds, Edge;
    var byMessageId, self, references := TablesOf(messages).byMessageId, MessageNode(m), Unique(sequence);
    var ancestors := Ancestors(byMessageId, references, self);
    var k, l :| FirstAt(sequence, k, x) && FirstAt(sequence, l, y) && k < l;
    var i, j := UniqueKeepsOrder(sequence, k, l);
    OtherNode(messages, m, x);
    OtherNode(messages, m, y);
    var p, q := AncestorsInOrder(byMessageId, references, self, i, j);
    forall u, v | (u, v) in LinkPairs(ancestors)
      ensures Edge(g, u, v)
    {
      ChainEdge(normalize, messages, g, m, sequence, u, v);
    }
    LinksReach(g, ancestors, p, q);
  }

  lemma OtherNode(messages: seq<Message>, m: Message, x: string)
    requires DistinctIds(messages) && DistinctMessageIds(messages) && m in messages && !HasId(m, x)
    ensures NodeFor(TablesOf(messages).byMessageId, x) != MessageNode(m)
  {
    hide TablesOf, NodeFor;
    AllIdsFound(messages);
  }

  /** A message follows every message that its fields list, unless the fields form a cycle. */
  lemma FollowsListed(normalize: string -> seq<string>, locale: (string, string) -> int, messages: seq<Message>, ordered: seq<Message>,
                      rank: string -> int, a: nat, b: nat, x: string)
    requires DistinctIds(messages) && DistinctMessageIds(messages) && ConversationOrder(normalize, locale, messages, ordered)
    requires Ascends(normalize, messages, rank)
    requires a < |ordered| && b < |ordered| && a != b && HasId(ordered[a], x) && ListsId(normalize, ordered[b], x)
    ensures a < b
  {
    hide OrderedBlocks, ThreadGraph, Reaches, TablesOf, NodeFor, Ascends, DistinctIds, DistinctMessageIds, AnswersTo, Brings, Edge;
    var g, blocks :| OrdersConversation(normalize, locale, messages, ordered, g, blocks);
    EveryMessageOnce(normalize, locale, messages, ordered);
    assert ordered[a] in messages && ordered[b] in messages && ordered[a] != ordered[b];
    AllIdsFound(messages);
    var u, v := MessageNode(ordered[a]), MessageNode(ordered[b]);
    assert u == NodeFor(TablesOf(messages).byMessageId, x) != v;
    if AnswersTo(normalize, ordered[b], x) {
      AnswerEdge(normalize, messages, g, ordered[b], x);
      ReachesEdge(g, u, v);
    } else {
      var sequence :| Brings(ordered[b], sequence) && x in sequence;
      ListReaches(normalize, messages, g, ordered[b], sequence, x);
    }
    NeverBack(normalize, messages, rank, g, u, v);
    AncestorsFirst(normalize, locale, messages, ordered, g, a, b);
  }

  /** And the messages in a list of ancestors, whoever brings it, come in the order of that list. */
  lemma AncestorsAsListed(normalize: string -> seq<string>, locale: (string, string) -> int, messages: seq<Message>, ordered: seq<Message>,
                          rank: string -> int, a: nat, b: nat, m: Message, sequence: seq<string>, x: string, y: string)
    requires DistinctIds(messages) && DistinctMessageIds(messages) && ConversationOrder(normalize, locale, messages, ordered)
    requires Ascends(normalize, messages, rank) && m in messages && ListedInOrder(m, sequence, x, y)
    requires a < |ordered| && b < |ordered| && HasId(ordered[a], x) && HasId(ordered[b], y)
    ensures a < b
  {
    hide OrderedBlocks, ThreadGraph, Reaches, TablesOf, NodeFor, DistinctIds, DistinctMessageIds, ListedInOrder, Edge;
    var g, blocks :| OrdersConversation(normalize, locale, messages, ordered, g, blocks);
    EveryMessageOnce(normalize, locale, messages, ordered);
    assert ordered[a] in messages && ordered[b] in messages;
    AllIdsFound(messages);
    var u, v := MessageNode(ordered[a]), MessageNode(ordered[b]);
    OrderReaches(normalize, messages, g, m, sequence, x, y);
    assert rank(x) < rank(y) && u != v;
    NeverBack(normalize, messages, rank, g, u, v);
    AncestorsFirst(normalize, locale, messages, ordered, g, a, b);
  }

  // Dates.

  /** Oldest first, messages without a date last, and messages of the same date by their identity. */
  ghost predicate DatedBefore(locale: (string, string) -> int, l: Message, r: Message) {
    && (l.receivedAt.None? ==> r.receivedAt.None?)
    && (l.receivedAt.Some? && r.receivedAt.Some? ==> locale(l.receivedAt.value, r.receivedAt.value) <= 0)
    && (l.receivedAt == r.receivedAt ==> locale(l.identityKey, r.identityKey) <= 0)
  }

  lemma ComparedByDate(locale: (string, string) -> int, l: Message, r: Message)
    requires TotalOrder(locale) && NodeOrder(locale)(MessageNode(l), MessageNode(r)) <= 0
    ensures DatedBefore(locale, l, r)
  {
    if l.receivedAt.Some? && l.receivedAt == r.receivedAt { assert locale(l.receivedAt.value, r.receivedAt.value) == 0; }
  }

  /** Some message from `a` on and before `b` leads to the one at `b`. */
  ghost predicate WaitsFor(g: Graph<OrderNode>, ordered: seq<Message>, a: nat, b: nat) {
    exists c :: a <= c < b < |ordered| && Reaches(g, MessageNode(ordered[c]), MessageNode(ordered[b]))
  }

  /** Without a cycle two messages only come in another order than that of their dates when the later one had to wait for a
      message in between; ids that belong to no message of the conversation never hold anything back. */
  lemma DatesDecide(normalize: string -> seq<string>, locale: (string, string) -> int, messages: seq<Message>, ordered: seq<Message>,
                    rank: string -> int, g: Graph<OrderNode>, a: nat, b: nat)
    requires TotalOrder(locale) && DistinctIds(messages) && DistinctMessageIds(messages)
    requires ConversationOrder(normalize, locale, messages, ordered) && ThreadGraph(normalize, TablesOf(messages), messages, g)
    requires Ascends(normalize, messages, rank) && a < b < |ordered|
    ensures DatedBefore(locale, ordered[a], ordered[b]) || WaitsFor(g, ordered, a, b)
  {
    hide OrderedBlocks, ThreadGraph, Reaches, TablesOf, Ascends, DistinctIds, DistinctMessageIds, VisibleOf, MessagesIn, NodeOrder, DatedBefore;
    var h, blocks :| OrdersConversation(normalize, locale, messages, ordered, h, blocks);
    OrderedNodes(normalize, locale, messages, ordered, h, blocks);
    var nodes := VisibleOf(IsMessage, blocks);
    NodeOrderIsTotal(locale);
    ThreadGraphWellFormed(normalize, TablesOf(messages), messages, h);
    SameThreads(normalize, messages, h, g);
    ListedBefore(h, NodeOrder(locale), IsMessage, blocks, a, b);
    if HeldBack(h, nodes, a, b) {
      var c :| a <= c < b && Reaches(h, nodes[c], nodes[b]);
      SameRelationReaches(h, g, nodes[c], nodes[b]);
      assert Reaches(g, MessageNode(ordered[c]), MessageNode(ordered[b]));
    } else {
      var c :| 0 <= c <= a && Mutual(h, nodes[c], nodes[a]) && NodeOrder(locale)(nodes[c], nodes[b]) <= 0;
      if nodes[c] != nodes[a] { NeverBack(normalize, messages, rank, h, nodes[c], nodes[a]); }
      ComparedByDate(locale, ordered[a], ordered[b]);
    }
  }

  /** No message of the conversation lists the id of another one, or its own. */
  ghost predicate Unthreaded(normalize: string -> seq<string>, messages: seq<Message>) {
    forall m, n, id :: m in messages && n in messages && HasId(n, id) ==> !ListsId(normalize, m, id)
  }

  /** Messages that name no message of the conversation come simply by their dates, whatever other ids they name. */
  lemma UnthreadedByDate(normalize: string -> seq<string>, locale: (string, string) -> int, messages: seq<Message>, ordered: seq<Message>,
                         a: nat, b: nat)
    requires TotalOrder(locale) && DistinctIds(messages) && DistinctMessageIds(messages) && Unthreaded(normalize, messages)
    requires ConversationOrder(normalize, locale, messages, ordered) && a < b < |ordered|
    ensures DatedBefore(locale, ordered[a], ordered[b])
  {
    hide OrderedBlocks, ThreadGraph, TablesOf, DistinctIds, DistinctMessageIds, VisibleOf, MessagesIn, NodeOrder, DatedBefore, Edge;
    var g, blocks :| OrdersConversation(normalize, locale, messages, ordered, g, blocks);
    OrderedNodes(normalize, locale, messages, ordered, g, blocks);
    NodeOrderIsTotal(locale);
    ThreadGraphWellFormed(normalize, TablesOf(messages), messages, g);
    forall u, v | Edge(g, u, v)
      ensures !IsMessage(u)
    {
      var m, x, y := EdgeFrom(normalize, messages, g, u, v);
      NamedMessage(messages, u, x);
    }
    SortedWithoutVisibleEdges(g, NodeOrder(locale), IsMessage, blocks);
    ComparedByDate(locale, ordered[a], ordered[b]);
  }

  /** The message that an id stands for belongs to the conversation and has that id. */
  lemma NamedMessage(messages: seq<Message>, u: OrderNode, x: string)
    requires DistinctIds(messages) && DistinctMessageIds(messages) && u == NodeFor(TablesOf(messages).byMessageId, x)
    ensures u.MessageNode? ==> u.message in messages && HasId(u.message, x)
  {
    forall i | 0 <= i < |messages|
      ensures messages[i].id in ById(messages) && ById(messages)[messages[i].id] == messages[i]
    {
      ByIdExact(messages, messages[i]);
    }
    ByMessageIdExact(ById(messages), messages, x);
  }
}
