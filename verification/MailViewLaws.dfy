/** Merged rows are the connected components of "shares an identity with". */
module MailViewLaws {
  import opened Orders
  import opened PriorityQueue
  import opened MailView

  // The reference definition: chains of messages in which neighbours share an identity.

  ghost predicate Touches(m: Message, n: Message) {
    Overlap(IdentityKeys(m), IdentityKeys(n))
  }

  ghost predicate TouchAt(p: seq<Message>, i: int)
    requires 0 < i < |p|
  {
    Touches(p[i - 1], p[i])
  }

  ghost predicate IsChain(messages: seq<Message>, p: seq<Message>) {
    && p != [] && (forall i :: 0 <= i < |p| ==> p[i] in messages)
    && (forall i :: 0 < i < |p| ==> TouchAt(p, i))
  }

  ghost predicate Linked(messages: seq<Message>, m: Message, n: Message) {
    exists p :: IsChain(messages, p) && p[0] == m && p[|p| - 1] == n
  }

  lemma LinkedTouch(messages: seq<Message>, m: Message, n: Message)
    requires m in messages && n in messages && Touches(m, n)
    ensures Linked(messages, m, n)
  {
    var p := [m, n];
    assert TouchAt(p, 1);
    assert IsChain(messages, p);
  }

  lemma TouchesBack(m: Message, n: Message)
    requires Touches(m, n)
    ensures Touches(n, m)
  {
  }

  lemma LinkedTransitive(messages: seq<Message>, l: Message, m: Message, n: Message)
    requires Linked(messages, l, m) && Linked(messages, m, n)
    ensures Linked(messages, l, n)
  {
    hide Touches;
    var p :| IsChain(messages, p) && p[0] == l && p[|p| - 1] == m;
    var q :| IsChain(messages, q) && q[0] == m && q[|q| - 1] == n;
    var r := p + q[1..];
    forall i | 0 < i < |r|
      ensures TouchAt(r, i)
    {
      if i < |p| { assert TouchAt(p, i); } else { assert TouchAt(q, i - |p| + 1); }
    }
    assert IsChain(messages, r);
  }

  lemma LinkedMore(messages: seq<Message>, more: seq<Message>, m: Message, n: Message)
    requires Linked(messages, m, n) && forall x :: x in messages ==> x in more
    ensures Linked(more, m, n)
  {
    var p :| IsChain(messages, p) && p[0] == m && p[|p| - 1] == n;
    assert IsChain(more, p);
  }

  // The invariant of the merge.

  ghost predicate Apart(a: Group, b: Group) {
    forall k :: k in a.identities ==> k !in b.identities
  }

  ghost predicate AllApart(groups: seq<Group>) {
    forall i, j :: 0 <= i < j < |groups| ==> Apart(groups[i], groups[j])
  }

  /** The message of a group is known by exactly the identities of the group. */
  ghost predicate Consistent(g: Group) {
    Distinct(g.identities) && forall k :: k in g.identities <==> k in IdentityKeys(g.message)
  }

  ghost predicate Holds(g: Group, m: Message) {
    MessageKey(m) in g.identities
  }

  ghost predicate Known(messages: seq<Message>, k: string) {
    exists m :: m in messages && k in IdentityKeys(m)
  }

  ghost predicate Listed(groups: seq<Group>, k: string) {
    exists g :: g in groups && k in g.identities
  }

  /** Every message lies in a group entirely or not at all. */
  ghost predicate Whole(messages: seq<Message>, groups: seq<Group>) {
    && (forall g, m, k :: g in groups && m in messages && Holds(g, m) && k in IdentityKeys(m) ==> k in g.identities)
    && (forall g, m, k :: g in groups && m in messages && k in g.identities && k in IdentityKeys(m) ==> Holds(g, m))
  }

  /** `groups` divides `messages` into its connected components. */
  ghost predicate Components(messages: seq<Message>, groups: seq<Group>) {
    && AllApart(groups)
    && (forall g :: g in groups ==> Consistent(g))
    && (forall k {:trigger Known(messages, k)} {:trigger Listed(groups, k)} :: Known(messages, k) <==> Listed(groups, k))
    && Whole(messages, groups)
    && (forall g, m, n {:trigger Holds(g, m), Holds(g, n)} ::
         g in groups && m in messages && n in messages && Holds(g, m) && Holds(g, n) ==> Linked(messages, m, n))
  }

  // One merge step.

  lemma {:induction false} UnmatchedMembers(groups: seq<Group>, keys: seq<string>, g: Group)
    ensures g in Unmatched(groups, keys) <==> g in groups && !Overlap(keys, g.identities)
  {
    if groups != [] {
      UnmatchedMembers(groups[1..], keys, g);
      assert g in groups <==> g == groups[0] || g in groups[1..];
    }
  }

  lemma {:induction false} ReplacedMembers(groups: seq<Group>, keys: seq<string>, merged: Group, g: Group)
    requires exists h :: h in groups && Overlap(keys, h.identities)
    ensures g in Replaced(groups, keys, merged) <==> g == merged || (g in groups && !Overlap(keys, g.identities))
  {
    assert forall x :: x in groups <==> x == groups[0] || x in groups[1..];
    if Overlap(keys, groups[0].identities) {
      UnmatchedMembers(groups[1..], keys, g);
    } else {
      ReplacedMembers(groups[1..], keys, merged, g);
    }
  }

  lemma {:induction false} UnmatchedApart(groups: seq<Group>, keys: seq<string>)
    requires AllApart(groups)
    ensures AllApart(Unmatched(groups, keys))
  {
    if groups != [] {
      assert AllApart(groups[1..]);
      UnmatchedApart(groups[1..], keys);
      var rest := Unmatched(groups[1..], keys);
      forall i | 0 <= i < |rest|
        ensures Apart(groups[0], rest[i])
      {
        UnmatchedMembers(groups[1..], keys, rest[i]);
        var j :| 0 <= j < |groups[1..]| && groups[1..][j] == rest[i];
        assert groups[j + 1] == rest[i];
      }
    }
  }

  /** What is merged consists of the incoming keys and the matching groups. */
  ghost predicate Absorbs(groups: seq<Group>, keys: seq<string>, merged: Group) {
    forall k :: k in merged.identities <==> k in keys || exists g :: g in groups && Overlap(keys, g.identities) && k in g.identities
  }

  lemma DifferentApart(groups: seq<Group>, g: Group, h: Group)
    requires AllApart(groups) && g in groups && h in groups && g != h
    ensures Apart(g, h)
  {
    var i :| 0 <= i < |groups| && groups[i] == g;
    var j :| 0 <= j < |groups| && groups[j] == h;
    assert Apart(groups[if i < j then i else j], groups[if i < j then j else i]);
  }

  lemma MergedApart(groups: seq<Group>, keys: seq<string>, merged: Group, g: Group)
    requires AllApart(groups) && Absorbs(groups, keys, merged) && g in groups && !Overlap(keys, g.identities)
    ensures Apart(merged, g) && Apart(g, merged)
  {
    forall k | k in merged.identities
      ensures k !in g.identities
    {
      if k !in keys {
        var h :| h in groups && Overlap(keys, h.identities) && k in h.identities;
        DifferentApart(groups, h, g);
      }
    }
  }

  lemma {:induction false} ReplacedApart(all: seq<Group>, groups: seq<Group>, keys: seq<string>, merged: Group)
    requires AllApart(all) && Absorbs(all, keys, merged) && AllApart(groups) && forall g :: g in groups ==> g in all
    ensures AllApart(Replaced(groups, keys, merged))
  {
    if groups != [] {
      assert AllApart(groups[1..]);
      if Overlap(keys, groups[0].identities) {
        UnmatchedApart(groups[1..], keys);
        var rest := Unmatched(groups[1..], keys);
        forall i | 0 <= i < |rest|
          ensures Apart(merged, rest[i])
        {
          UnmatchedMembers(groups[1..], keys, rest[i]);
          MergedApart(all, keys, merged, rest[i]);
        }
      } else {
        ReplacedApart(all, groups[1..], keys, merged);
        var rest := Replaced(groups[1..], keys, merged);
        forall i | 0 <= i < |rest|
          ensures Apart(groups[0], rest[i])
        {
          ReplacedFrom(groups[1..], keys, merged, rest[i]);
          if rest[i] == merged {
            MergedApart(all, keys, merged, groups[0]);
          } else {
            var j :| 0 <= j < |groups[1..]| && groups[1..][j] == rest[i];
            assert groups[j + 1] == rest[i];
          }
        }
      }
    }
  }

  lemma {:induction false} ReplacedFrom(groups: seq<Group>, keys: seq<string>, merged: Group, g: Group)
    requires g in Replaced(groups, keys, merged)
    ensures g == merged || g in groups
  {
    if groups != [] {
      if Overlap(keys, groups[0].identities) {
        UnmatchedMembers(groups[1..], keys, g);
      } else if g != groups[0] {
        ReplacedFrom(groups[1..], keys, merged, g);
      }
    }
  }

  /** The merged group absorbs the matching ones and its message is known by all its identities. */
  lemma MergedGroupFits(groups: seq<Group>, message: Message)
    requires forall g :: g in groups ==> Consistent(g)
    requires Matched(groups, IdentityKeys(message)) != []
    ensures var keys := IdentityKeys(message); var merged := MergedGroup(Matched(groups, keys), message);
      Absorbs(groups, keys, merged) && Consistent(merged)
  {
    var keys := IdentityKeys(message);
    var matched := Matched(groups, keys);
    var merged := MergedGroup(matched, message);
    var candidates := MessagesOf(matched) + [message];
    var representative := Representative(candidates);
    assert MessageKey(representative) in merged.identities by {
      if representative == message {
        assert MessageKey(message) in keys;
      } else {
        var i :| 0 <= i < |matched| && matched[i].message == representative;
        assert matched[i] in matched && MessageKey(representative) in IdentityKeys(representative);
      }
    }
    assert MessageKey(merged.message) == MessageKey(representative);
  }

  /** How the groups change: the matching ones are absorbed, the others stay. */
  lemma StepMembers(groups: seq<Group>, message: Message) returns (merged: Group)
    requires AllApart(groups) && forall g :: g in groups ==> Consistent(g)
    ensures Absorbs(groups, IdentityKeys(message), merged) && Consistent(merged)
    ensures AllApart(MergeGroup(groups, message))
    ensures forall g :: g in MergeGroup(groups, message) <==> g == merged || (g in groups && !Overlap(IdentityKeys(message), g.identities))
  {
    var keys := IdentityKeys(message);
    var matched := Matched(groups, keys);
    if matched == [] {
      merged := Group(message, Unique(keys));
      forall g | g in groups
        ensures !Overlap(keys, g.identities)
      {
        assert g !in matched;
      }
      forall i | 0 <= i < |groups|
        ensures Apart(groups[i], merged)
      {
        assert groups[i] in groups;
        assert forall k :: k in groups[i].identities ==> k !in keys;
      }
    } else {
      merged := MergedGroup(matched, message);
      MergedGroupFits(groups, message);
      assert matched[0] in matched;
      forall g
        ensures g in MergeGroup(groups, message) <==> g == merged || (g in groups && !Overlap(keys, g.identities))
      {
        ReplacedMembers(groups, keys, merged, g);
      }
      ReplacedApart(groups, groups, keys, merged);
    }
  }

  lemma StepKnown(messages: seq<Message>, groups: seq<Group>, message: Message, merged: Group, after: seq<Group>, k: string)
    requires forall k {:trigger Known(messages, k)} {:trigger Listed(groups, k)} :: Known(messages, k) <==> Listed(groups, k)
    requires Absorbs(groups, IdentityKeys(message), merged)
    requires forall g :: g in after <==> g == merged || (g in groups && !Overlap(IdentityKeys(message), g.identities))
    ensures Known(messages + [message], k) <==> Listed(after, k)
  {
    var keys := IdentityKeys(message);
    assert Known(messages + [message], k) <==> Known(messages, k) || k in keys by {
      assert forall m :: m in messages + [message] <==> m in messages || m == message;
    }
    if Listed(groups, k) {
      var g :| g in groups && k in g.identities;
      if Overlap(keys, g.identities) { assert k in merged.identities; }
    }
    if k in keys { assert k in merged.identities; }
    if Listed(after, k) {
      var g :| g in after && k in g.identities;
      if g == merged && k !in keys {
        var h :| h in groups && Overlap(keys, h.identities) && k in h.identities;
        assert Listed(groups, k);
      }
      assert g != merged ==> Listed(groups, k);
    }
  }

  lemma StepWhole(messages: seq<Message>, groups: seq<Group>, message: Message, merged: Group, m: Message, k: string, l: string)
    requires Whole(messages, groups) && (forall k :: k in IdentityKeys(m) ==> Listed(groups, k) || m == message)
    requires m in messages || m == message
    requires Absorbs(groups, IdentityKeys(message), merged)
    requires k in merged.identities && k in IdentityKeys(m) && l in IdentityKeys(m)
    requires forall g, x :: g in groups && x in g.identities && x in IdentityKeys(message) ==> Overlap(IdentityKeys(message), g.identities)
    requires AllApart(groups)
    ensures l in merged.identities
  {
    var keys := IdentityKeys(message);
    if m != message {
      var g: Group;
      if k in keys {
        assert Listed(groups, k);
        g :| g in groups && k in g.identities;
      } else {
        g :| g in groups && Overlap(keys, g.identities) && k in g.identities;
      }
      assert Holds(g, m);
      assert l in g.identities;
    }
  }

  /** Messages that end up in the merged group are linked through the incoming one. */
  lemma StepLinked(messages: seq<Message>, groups: seq<Group>, message: Message, merged: Group, m: Message)
    requires Components(messages, groups) && Absorbs(groups, IdentityKeys(message), merged)
    requires (m in messages || m == message) && Holds(merged, m)
    ensures Linked(messages + [message], m, message) && Linked(messages + [message], message, m)
  {
    var keys, more := IdentityKeys(message), messages + [message];
    var k := MessageKey(m);
    assert k in IdentityKeys(m) && message in more && m in more;
    if k in keys {
      assert Touches(m, message);
      TouchesBack(m, message);
      LinkedTouch(more, m, message);
      LinkedTouch(more, message, m);
    } else {
      var g :| g in groups && Overlap(keys, g.identities) && k in g.identities;
      var x :| x in keys && x in g.identities;
      assert Listed(groups, x);
      var n :| n in messages && x in IdentityKeys(n);
      assert Holds(g, n) && Holds(g, m) && m in messages;
      LinkedMore(messages, more, m, n);
      LinkedMore(messages, more, n, m);
      assert Touches(n, message) && n in more;
      TouchesBack(n, message);
      LinkedTouch(more, n, message);
      LinkedTouch(more, message, n);
      LinkedTransitive(more, m, n, message);
      LinkedTransitive(more, message, n, m);
    }
  }

  lemma StepKeepsWhole(messages: seq<Message>, groups: seq<Group>, message: Message, merged: Group, after: seq<Group>)
    requires Components(messages, groups) && Absorbs(groups, IdentityKeys(message), merged)
    requires forall g :: g in after <==> g == merged || (g in groups && !Overlap(IdentityKeys(message), g.identities))
    ensures Whole(messages + [message], after)
  {
    var more := messages + [message];
    forall g, m, k, l | g in after && m in more && k in IdentityKeys(m) && l in IdentityKeys(m) && k in g.identities
      ensures l in g.identities
    {
      assert m in messages || m == message;
      if g == merged {
        forall x | x in IdentityKeys(m) && m != message
          ensures Listed(groups, x)
        {
          assert Known(messages, x);
        }
        StepWhole(messages, groups, message, merged, m, k, l);
      } else {
        assert m in messages;
      }
    }
  }

  lemma ComponentsStep(messages: seq<Message>, groups: seq<Group>, message: Message)
    requires Components(messages, groups)
    ensures Components(messages + [message], MergeGroup(groups, message))
  {
    hide MergeGroup, Linked, Absorbs, AllApart, Apart, Whole, Overlap;
    var more, after := messages + [message], MergeGroup(groups, message);
    var merged := StepMembers(groups, message);
    forall k
      ensures Known(more, k) <==> Listed(after, k)
    {
      StepKnown(messages, groups, message, merged, after, k);
    }
    StepKeepsWhole(messages, groups, message, merged, after);
    forall g, m, n | g in after && m in more && n in more && Holds(g, m) && Holds(g, n)
      ensures Linked(more, m, n)
    {
      if g == merged {
        StepLinked(messages, groups, message, merged, m);
        StepLinked(messages, groups, message, merged, n);
        LinkedTransitive(more, m, message, n);
      } else {
        OutsideIsOld(groups, message, g, m);
        OutsideIsOld(groups, message, g, n);
        LinkedMore(messages, more, m, n);
      }
    }
  }

  lemma OutsideIsOld(groups: seq<Group>, message: Message, g: Group, m: Message)
    requires !Overlap(IdentityKeys(message), g.identities) && Holds(g, m)
    ensures m != message
  {
    assert MessageKey(message) in IdentityKeys(message);
  }

  lemma NothingMerged()
    ensures Components([], [])
  {
  }

  lemma {:induction false} MergeAllComponents(messages: seq<Message>)
    ensures Components(messages, MergeAll(messages))
  {
    hide Components, MergeGroup;
    if messages == [] {
      NothingMerged();
    } else {
      var n := |messages| - 1;
      MergeAllComponents(messages[..n]);
      ComponentsStep(messages[..n], MergeAll(messages[..n]), messages[n]);
      assert messages == messages[..n] + [messages[n]];
    }
  }

  // What the rows mean.

  /** Row `row` stands for `m`: it is known by an identity of `m`. */
  ghost predicate Shows(row: Message, m: Message) {
    Touches(m, row)
  }

  lemma ShowsIsHolds(messages: seq<Message>, groups: seq<Group>, g: Group, m: Message)
    requires Components(messages, groups) && g in groups && m in messages
    ensures Shows(g.message, m) <==> Holds(g, m)
  {
    assert MessageKey(m) in IdentityKeys(m);
    if Shows(g.message, m) {
      var k :| k in IdentityKeys(m) && k in IdentityKeys(g.message);
      assert k in g.identities;
    }
  }

  lemma SameGroup(groups: seq<Group>, i: nat, j: nat, k: string)
    requires AllApart(groups) && i < |groups| && j < |groups| && k in groups[i].identities && k in groups[j].identities
    ensures i == j
  {
  }

  lemma RowFor(messages: seq<Message>, groups: seq<Group>, m: Message) returns (r: nat)
    requires Components(messages, groups) && m in messages
    ensures r < |groups| && Holds(groups[r], m)
  {
    var key := MessageKey(m);
    assert key in IdentityKeys(m) && Known(messages, key);
    assert Listed(groups, key);
    var g :| g in groups && key in g.identities;
    r :| 0 <= r < |groups| && groups[r] == g;
  }

  lemma RowsApart(messages: seq<Message>, groups: seq<Group>)
    requires Components(messages, groups)
    ensures AllApart(groups)
  {
  }

  /** Each input is shown by exactly one row. */
  lemma ShownOnce(lists: seq<seq<Message>>, m: Message) returns (r: nat)
    requires m in Concat(lists)
    ensures r < |MergeMessages(lists)| && Shows(MergeMessages(lists)[r], m)
    ensures forall i :: 0 <= i < |MergeMessages(lists)| && Shows(MergeMessages(lists)[i], m) ==> i == r
  {
    hide Components, Shows, AllApart;
    var messages := Concat(lists);
    var groups := MergeAll(messages);
    MergeAllComponents(messages);
    RowsApart(messages, groups);
    r := RowFor(messages, groups, m);
    ShowsIsHolds(messages, groups, groups[r], m);
    forall i | 0 <= i < |groups| && Shows(groups[i].message, m)
      ensures i == r
    {
      ShowsIsHolds(messages, groups, groups[i], m);
      SameGroup(groups, i, r, MessageKey(m));
    }
  }

  lemma ComponentsWhole(messages: seq<Message>, groups: seq<Group>)
    requires Components(messages, groups)
    ensures Whole(messages, groups)
  {
  }

  lemma {:induction false} ChainStaysInRow(messages: seq<Message>, groups: seq<Group>, p: seq<Message>, i: nat, g: Group)
    requires Whole(messages, groups) && IsChain(messages, p) && i < |p| && g in groups && Holds(g, p[0])
    ensures Holds(g, p[i])
  {
    if i > 0 {
      ChainStaysInRow(messages, groups, p, i - 1, g);
      assert TouchAt(p, i);
      var k :| k in IdentityKeys(p[i - 1]) && k in IdentityKeys(p[i]);
      assert k in g.identities;
    }
  }

  lemma SameRowLinked(lists: seq<seq<Message>>, m: Message, n: Message, r: nat)
    requires m in Concat(lists) && n in Concat(lists) && r < |MergeMessages(lists)|
    requires Shows(MergeMessages(lists)[r], m) && Shows(MergeMessages(lists)[r], n)
    ensures Linked(Concat(lists), m, n)
  {
    hide Linked, Shows;
    var groups := MergeAll(Concat(lists));
    MergeAllComponents(Concat(lists));
    ShowsIsHolds(Concat(lists), groups, groups[r], m);
    ShowsIsHolds(Concat(lists), groups, groups[r], n);
    assert groups[r] in groups;
  }

  lemma LinkedSameRow(lists: seq<seq<Message>>, m: Message, n: Message) returns (r: nat)
    requires m in Concat(lists) && n in Concat(lists) && Linked(Concat(lists), m, n)
    ensures r < |MergeMessages(lists)| && Shows(MergeMessages(lists)[r], m) && Shows(MergeMessages(lists)[r], n)
  {
    hide Shows, Components, Holds, TouchAt, MergeAll, Concat;
    var messages := Concat(lists);
    var groups := MergeAll(messages);
    MergeAllComponents(messages);
    r := ShownOnce(lists, m);
    var p :| IsChain(messages, p) && p[0] == m && p[|p| - 1] == n;
    ShowsIsHolds(messages, groups, groups[r], m);
    ComponentsWhole(messages, groups);
    ChainStaysInRow(messages, groups, p, |p| - 1, groups[r]);
    ShowsIsHolds(messages, groups, groups[r], n);
  }

  /** Two inputs are shown by the same row exactly when a chain of shared identities links them. */
  lemma SameRowIffLinked(lists: seq<seq<Message>>, m: Message, n: Message)
    requires m in Concat(lists) && n in Concat(lists)
    ensures (exists r :: 0 <= r < |MergeMessages(lists)| && Shows(MergeMessages(lists)[r], m) && Shows(MergeMessages(lists)[r], n))
      <==> Linked(Concat(lists), m, n)
  {
    hide Shows, Linked;
    if r :| 0 <= r < |MergeMessages(lists)| && Shows(MergeMessages(lists)[r], m) && Shows(MergeMessages(lists)[r], n) {
      SameRowLinked(lists, m, n, r);
    }
    if Linked(Concat(lists), m, n) {
      var r := LinkedSameRow(lists, m, n);
    }
  }

  ghost predicate Separate(rows: seq<Message>) {
    forall i, j :: 0 <= i < j < |rows| ==> !Touches(rows[i], rows[j])
  }

  /** Rows share no identity, and together they are known by exactly the identities of the inputs. */
  lemma RowsPartitionIdentities(lists: seq<seq<Message>>)
    ensures var rows := MergeMessages(lists);
      && Separate(rows)
      && (forall k :: Known(rows, k) <==> Known(Concat(lists), k))
  {
    var rows, groups := MergeMessages(lists), MergeAll(Concat(lists));
    MergeAllComponents(Concat(lists));
    forall i | 0 <= i < |groups| ensures groups[i] in groups && Consistent(groups[i]) { }
    forall i, j | 0 <= i < j < |rows|
      ensures !Touches(rows[i], rows[j])
    {
      assert Apart(groups[i], groups[j]);
      assert forall k :: k in IdentityKeys(rows[i]) ==> k in groups[i].identities && k !in groups[j].identities;
    }
    forall k
      ensures Known(rows, k) <==> Listed(groups, k)
    {
      if row :| row in rows && k in IdentityKeys(row) {
        var i :| 0 <= i < |rows| && rows[i] == row;
        assert k in groups[i].identities;
      }
      if g :| g in groups && k in g.identities {
        var i :| 0 <= i < |groups| && groups[i] == g;
        assert rows[i] in rows && k in IdentityKeys(rows[i]);
      }
    }
  }

  lemma Unmatching(groups: seq<Group>, message: Message)
    requires forall i :: 0 <= i < |groups| ==> !Overlap(IdentityKeys(message), groups[i].identities)
    ensures MergeGroup(groups, message) == groups + [Group(message, Unique(IdentityKeys(message)))]
  {
    HasElement(Matched(groups, IdentityKeys(message)));
  }

  /** The groups of rows that share nothing are the rows themselves. */
  lemma {:induction false} MergeOfSeparateRows(rows: seq<Message>)
    requires Separate(rows)
    ensures |MergeAll(rows)| == |rows|
    ensures forall i :: 0 <= i < |rows| ==> MergeAll(rows)[i] == Group(rows[i], Unique(IdentityKeys(rows[i])))
  {
    hide MergeGroup, Unique, IdentityKeys;
    if rows != [] {
      var n := |rows| - 1;
      MergeOfSeparateRows(rows[..n]);
      forall i | 0 <= i < n
        ensures !Overlap(IdentityKeys(rows[n]), MergeAll(rows[..n])[i].identities)
      {
        NoOverlap(rows[i], rows[n]);
      }
      Unmatching(MergeAll(rows[..n]), rows[n]);
    }
  }

  lemma NoOverlap(m: Message, n: Message)
    requires !Touches(m, n)
    ensures !Overlap(IdentityKeys(n), Unique(IdentityKeys(m)))
  {
  }

  /** Merging the result again changes nothing. */
  lemma MergeIdempotent(lists: seq<seq<Message>>)
    ensures MergeMessages([MergeMessages(lists)]) == MergeMessages(lists)
  {
    var rows := MergeMessages(lists);
    RowsPartitionIdentities(lists);
    MergeOfSeparateRows(rows);
    assert MessagesOf(MergeAll(rows)) == rows;
    assert [rows][..0] == [];
    assert Concat([rows]) == Concat([rows][..0]) + rows == rows;
  }

  /** The row is the input message, except for the aliases it lists. */
  ghost predicate ShowsContentOf(row: Message, m: Message) {
    row.canonicalId == m.canonicalId && row.ref == m.ref
  }

  ghost predicate FromInputs(messages: seq<Message>, groups: seq<Group>) {
    forall g :: g in groups ==> exists m :: m in messages && ShowsContentOf(g.message, m)
  }

  lemma FromInputsStep(messages: seq<Message>, groups: seq<Group>, message: Message)
    requires FromInputs(messages, groups)
    ensures FromInputs(messages + [message], MergeGroup(groups, message))
  {
    var keys := IdentityKeys(message);
    var matched := Matched(groups, keys);
    forall g | g in MergeGroup(groups, message)
      ensures exists m :: m in messages + [message] && ShowsContentOf(g.message, m)
    {
      var source: Group;
      if matched == [] {
        source := g;
      } else {
        var merged := MergedGroup(matched, message);
        ReplacedFrom(groups, keys, merged, g);
        var representative := Representative(MessagesOf(matched) + [message]);
        assert g == merged ==> ShowsContentOf(g.message, representative);
        if g == merged && representative != message {
          var i :| 0 <= i < |matched| && matched[i].message == representative;
          source := matched[i];
          assert source in matched;
        } else {
          source := g;
        }
      }
      if source in groups {
        var m :| m in messages && ShowsContentOf(source.message, m);
        assert m in messages + [message];
      } else {
        assert message in messages + [message] && ShowsContentOf(g.message, message);
      }
    }
  }

  /** Every row shows the content of one of the inputs. */
  lemma {:induction false} RowsShowInputs(messages: seq<Message>)
    ensures FromInputs(messages, MergeAll(messages))
  {
    hide MergeGroup;
    if messages != [] {
      var n := |messages| - 1;
      RowsShowInputs(messages[..n]);
      FromInputsStep(messages[..n], MergeAll(messages[..n]), messages[n]);
      assert messages == messages[..n] + [messages[n]];
    }
  }
}
