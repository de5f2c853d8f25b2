/** The order of the rows of a merged list: a row stands where its first message stood, however late its other messages,
    or the aliases that tie them together, come. */
module MailViewOrder {
  import opened Orders
  import opened PriorityQueue
  import opened MailView
  import opened MailViewLaws

  /** The first message of the list that lies in the group. */
  ghost predicate IsFirst(messages: seq<Message>, g: Group, a: nat) {
    a < |messages| && Holds(g, messages[a]) && forall b :: 0 <= b < a ==> !Holds(g, messages[b])
  }

  ghost predicate Earlier(messages: seq<Message>, g: Group, h: Group) {
    forall a: nat, b: nat :: IsFirst(messages, g, a) && IsFirst(messages, h, b) ==> a < b
  }

  ghost predicate InOrder(messages: seq<Message>, groups: seq<Group>) {
    forall i, j :: 0 <= i < j < |groups| ==> Earlier(messages, groups[i], groups[j])
  }

  lemma FirstHolder(messages: seq<Message>, g: Group, b: nat) returns (a: nat)
    requires b < |messages| && Holds(g, messages[b])
    ensures a <= b && IsFirst(messages, g, a)
  {
    a := 0;
    while !Holds(g, messages[a])
      invariant a <= b && forall c :: 0 <= c < a ==> !Holds(g, messages[c])
      decreases b - a
    {
      a := a + 1;
    }
  }

  /** No group is empty. */
  lemma GroupHasFirst(messages: seq<Message>, groups: seq<Group>, g: Group) returns (a: nat)
    requires Components(messages, groups) && g in groups
    ensures IsFirst(messages, g, a)
  {
    var k := MessageKey(g.message);
    assert k in IdentityKeys(g.message) && k in g.identities && Listed(groups, k);
    assert Known(messages, k);
    var m :| m in messages && k in IdentityKeys(m);
    assert Holds(g, m);
    var b :| 0 <= b < |messages| && messages[b] == m;
    a := FirstHolder(messages, g, b);
  }

  /** One more message does not move the first message of a group. */
  lemma FirstStays(messages: seq<Message>, groups: seq<Group>, message: Message, g: Group, a: nat)
    requires Components(messages, groups) && g in groups
    ensures IsFirst(messages + [message], g, a) <==> IsFirst(messages, g, a)
  {
    hide Components, Holds;
    var first := GroupHasFirst(messages, groups, g);
    var more := messages + [message];
    assert forall b :: 0 <= b < |messages| ==> more[b] == messages[b];
  }

  /** Whatever of the old messages lies in the merged group lay in a group that was absorbed. */
  lemma AbsorbedFrom(messages: seq<Message>, groups: seq<Group>, message: Message, merged: Group, m: Message) returns (x: Group)
    requires Components(messages, groups) && Absorbs(groups, IdentityKeys(message), merged)
    requires m in messages && Holds(merged, m)
    ensures x in groups && Overlap(IdentityKeys(message), x.identities) && Holds(x, m)
  {
    var k := MessageKey(m);
    assert k in IdentityKeys(m) && Known(messages, k) && Listed(groups, k);
    x :| x in groups && k in x.identities;
    if k !in IdentityKeys(message) {
      x :| x in groups && Overlap(IdentityKeys(message), x.identities) && k in x.identities;
    }
  }

  /** A group before all the absorbed ones comes before the merged one. */
  lemma BeforeMerged(messages: seq<Message>, groups: seq<Group>, message: Message, merged: Group, g: Group)
    requires Components(messages, groups) && Absorbs(groups, IdentityKeys(message), merged) && g in groups
    requires forall x :: x in groups && Overlap(IdentityKeys(message), x.identities) ==> Earlier(messages, g, x)
    ensures Earlier(messages + [message], g, merged)
  {
    hide Components, Holds, Absorbs, Overlap;
    var more := messages + [message];
    forall a: nat, b: nat | IsFirst(more, g, a) && IsFirst(more, merged, b)
      ensures a < b
    {
      FirstStays(messages, groups, message, g, a);
      if b < |messages| {
        var x := AbsorbedFrom(messages, groups, message, merged, messages[b]);
        var c := FirstHolder(messages, x, b);
      }
    }
  }

  /** The merged group comes before what one of the absorbed groups came before. */
  lemma MergedBefore(messages: seq<Message>, groups: seq<Group>, message: Message, merged: Group, x: Group, h: Group)
    requires Components(messages, groups) && Absorbs(groups, IdentityKeys(message), merged) && x in groups && h in groups
    requires Overlap(IdentityKeys(message), x.identities) && Earlier(messages, x, h)
    ensures Earlier(messages + [message], merged, h)
  {
    var more := messages + [message];
    forall a: nat, b: nat | IsFirst(more, merged, a) && IsFirst(more, h, b)
      ensures a < b
    {
      FirstStays(messages, groups, message, h, b);
      var c := GroupHasFirst(messages, groups, x);
      assert more[c] == messages[c] && Holds(merged, more[c]);
    }
  }

  lemma StillEarlier(messages: seq<Message>, groups: seq<Group>, message: Message, g: Group, h: Group)
    requires Components(messages, groups) && g in groups && h in groups && Earlier(messages, g, h)
    ensures Earlier(messages + [message], g, h)
  {
    hide Components, IsFirst;
    forall a: nat, b: nat | IsFirst(messages + [message], g, a) && IsFirst(messages + [message], h, b)
      ensures a < b
    {
      FirstStays(messages, groups, message, g, a);
      FirstStays(messages, groups, message, h, b);
    }
  }

  lemma {:induction false} UnmatchedInOrder(messages: seq<Message>, all: seq<Group>, message: Message, groups: seq<Group>)
    requires Components(messages, all) && InOrder(messages, groups) && forall g :: g in groups ==> g in all
    ensures InOrder(messages + [message], Unmatched(groups, IdentityKeys(message)))
  {
    if groups != [] {
      hide Components, Earlier, Overlap, IdentityKeys;
      var keys := IdentityKeys(message);
      assert InOrder(messages, groups[1..]);
      UnmatchedInOrder(messages, all, message, groups[1..]);
      var rest := Unmatched(groups[1..], keys);
      forall i | 0 <= i < |rest|
        ensures Earlier(messages + [message], groups[0], rest[i])
      {
        UnmatchedMembers(groups[1..], keys, rest[i]);
        EarlierThanRest(messages, groups, rest[i]);
        StillEarlier(messages, all, message, groups[0], rest[i]);
      }
    }
  }

  lemma EarlierThanRest(messages: seq<Message>, groups: seq<Group>, h: Group)
    requires InOrder(messages, groups) && groups != [] && h in groups[1..]
    ensures Earlier(messages, groups[0], h)
  {
    var j :| 0 <= j < |groups[1..]| && groups[1..][j] == h;
    assert groups[j + 1] == h;
  }

  lemma {:induction false} ReplacedInOrder(messages: seq<Message>, all: seq<Group>, message: Message, merged: Group, groups: seq<Group>)
    requires Components(messages, all) && Absorbs(all, IdentityKeys(message), merged)
    requires InOrder(messages, groups) && forall g :: g in groups ==> g in all
    requires forall x :: x in all && Overlap(IdentityKeys(message), x.identities) ==> x in groups
    ensures InOrder(messages + [message], Replaced(groups, IdentityKeys(message), merged))
  {
    if groups != [] {
      hide Components, Earlier, Overlap, IdentityKeys, Absorbs;
      var keys := IdentityKeys(message);
      assert InOrder(messages, groups[1..]);
      if Overlap(keys, groups[0].identities) {
        UnmatchedInOrder(messages, all, message, groups[1..]);
        var rest := Unmatched(groups[1..], keys);
        forall i | 0 <= i < |rest|
          ensures Earlier(messages + [message], merged, rest[i])
        {
          UnmatchedMembers(groups[1..], keys, rest[i]);
          EarlierThanRest(messages, groups, rest[i]);
          MergedBefore(messages, all, message, merged, groups[0], rest[i]);
        }
      } else {
        assert forall x :: x in groups && x != groups[0] ==> x in groups[1..];
        ReplacedInOrder(messages, all, message, merged, groups[1..]);
        var rest := Replaced(groups[1..], keys, merged);
        forall i | 0 <= i < |rest|
          ensures Earlier(messages + [message], groups[0], rest[i])
        {
          ReplacedFrom(groups[1..], keys, merged, rest[i]);
          if rest[i] in groups[1..] {
            EarlierThanRest(messages, groups, rest[i]);
            StillEarlier(messages, all, message, groups[0], rest[i]);
          } else {
            forall x | x in all && Overlap(keys, x.identities)
              ensures Earlier(messages, groups[0], x)
            {
              EarlierThanRest(messages, groups, x);
            }
            BeforeMerged(messages, all, message, merged, groups[0]);
          }
        }
      }
    }
  }

  lemma OrderStep(messages: seq<Message>, groups: seq<Group>, message: Message)
    requires Components(messages, groups) && InOrder(messages, groups)
    ensures InOrder(messages + [message], MergeGroup(groups, message))
  {
    hide Earlier, Overlap, Replaced, MergedGroup, Linked;
    var keys := IdentityKeys(message);
    var matched := Matched(groups, keys);
    if matched == [] {
      LastInOrder(messages, groups, message);
    } else {
      MergedGroupFits(groups, message);
      ReplacedInOrder(messages, groups, message, MergedGroup(matched, message), groups);
    }
  }

  /** A message that matches nothing is the first of a group of its own. */
  lemma LastInOrder(messages: seq<Message>, groups: seq<Group>, message: Message)
    requires Components(messages, groups) && InOrder(messages, groups) && Matched(groups, IdentityKeys(message)) == []
    ensures InOrder(messages + [message], groups + [Group(message, Unique(IdentityKeys(message)))])
  {
    hide Components, Unique, IsFirst, Holds, Overlap;
    var keys, more := IdentityKeys(message), messages + [message];
    var last := Group(message, Unique(keys));
    forall x | x in groups
      ensures !Overlap(keys, x.identities)
    {
      assert x !in Matched(groups, keys);
    }
    forall i, j | 0 <= i < j < |groups|
      ensures Earlier(more, groups[i], groups[j])
    {
      StillEarlier(messages, groups, message, groups[i], groups[j]);
    }
    forall i | 0 <= i < |groups|
      ensures Earlier(more, groups[i], last)
    {
      assert Absorbs(groups, keys, last);
      BeforeMerged(messages, groups, message, last, groups[i]);
    }
  }

  lemma {:induction false} MergeAllInOrder(messages: seq<Message>)
    ensures InOrder(messages, MergeAll(messages))
  {
    hide InOrder, MergeGroup, Components;
    if messages == [] {
      NothingInOrder();
    } else {
      var n := |messages| - 1;
      MergeAllInOrder(messages[..n]);
      MergeAllComponents(messages[..n]);
      OrderStep(messages[..n], MergeAll(messages[..n]), messages[n]);
      assert messages == messages[..n] + [messages[n]];
    }
  }

  lemma NothingInOrder()
    ensures InOrder([], [])
  {
  }

  /** The rows come in the order of the first messages they show. */
  lemma RowsInOrder(lists: seq<seq<Message>>, i: nat, j: nat) returns (a: nat)
    requires i < j < |MergeMessages(lists)|
    ensures a < |Concat(lists)| && Shows(MergeMessages(lists)[i], Concat(lists)[a])
    ensures forall b :: 0 <= b < |Concat(lists)| && Shows(MergeMessages(lists)[j], Concat(lists)[b]) ==> a < b
  {
    hide Components, Shows, Concat, Earlier;
    var messages := Concat(lists);
    var groups := MergeAll(messages);
    MergeAllInOrder(messages);
    MergeAllComponents(messages);
    assert groups[i] in groups && groups[j] in groups;
    assert Earlier(messages, groups[i], groups[j]);
    a := GroupHasFirst(messages, groups, groups[i]);
    ShowsIsHolds(messages, groups, groups[i], messages[a]);
    forall b | 0 <= b < |messages| && Shows(groups[j].message, messages[b])
      ensures a < b
    {
      ShowsIsHolds(messages, groups, groups[j], messages[b]);
      var c := FirstHolder(messages, groups[j], b);
      EarlierAt(messages, groups[i], groups[j], a, c);
    }
  }

  lemma EarlierAt(messages: seq<Message>, g: Group, h: Group, a: nat, b: nat)
    requires Earlier(messages, g, h) && IsFirst(messages, g, a) && IsFirst(messages, h, b)
    ensures a < b
  {
  }
}
