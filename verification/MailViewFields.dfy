/** The rows of a merged list in terms of the fields of the messages: canonical ids, aliases and references. */
module MailViewFields {
  import opened Orders
  import opened PriorityQueue
  import opened MailView
  import opened MailViewLaws

  ghost predicate HasAlias(m: Message, c: string) {
    m.canonicalAliases.Some? && c in m.canonicalAliases.value
  }

  /** The message has this canonical id, or lists it among its aliases. */
  ghost predicate Named(m: Message, c: string) {
    m.canonicalId == Some(c) || HasAlias(m, c)
  }

  /** A message without a canonical id is known by its reference, written out. */
  ghost predicate KnownByReference(m: Message, text: string) {
    m.canonicalId.None? && text == m.ref.accountId + ":" + m.ref.mailbox + ":" + m.ref.uidValidity + ":" + Decimal(m.ref.uid)
  }

  lemma KeysByFields(m: Message, k: string)
    ensures k in IdentityKeys(m) <==> Named(m, k) || KnownByReference(m, k)
  {
  }

  /** Messages share an identity exactly when they share a canonical id or alias, both have none and the same written
      reference, or one is named by the written reference of the other. */
  lemma TouchesByFields(m: Message, n: Message)
    ensures Touches(m, n) <==> exists k :: (Named(m, k) || KnownByReference(m, k)) && (Named(n, k) || KnownByReference(n, k))
  {
    hide IdentityKeys, Named, KnownByReference;
    if Touches(m, n) {
      var k :| k in IdentityKeys(m) && k in IdentityKeys(n);
      KeysByFields(m, k);
      KeysByFields(n, k);
    }
    if k :| (Named(m, k) || KnownByReference(m, k)) && (Named(n, k) || KnownByReference(n, k)) {
      KeysByFields(m, k);
      KeysByFields(n, k);
      assert k in IdentityKeys(m) && k in IdentityKeys(n);
    }
  }

  /** No input without a canonical id is known by this text. */
  ghost predicate NoReference(lists: seq<seq<Message>>, c: string) {
    forall m :: m in Concat(lists) ==> !KnownByReference(m, c)
  }

  lemma {:induction false} InConcat(lists: seq<seq<Message>>, m: Message)
    ensures m in Concat(lists) <==> exists i :: 0 <= i < |lists| && m in lists[i]
  {
    if lists != [] {
      var n := |lists| - 1;
      InConcat(lists[..n], m);
      if i :| 0 <= i < |lists| && m in lists[i] {
        if i < n { assert m in lists[..n][i]; }
      }
      if i :| 0 <= i < n && m in lists[..n][i] { assert m in lists[i]; }
    }
  }

  lemma RowFromInput(lists: seq<seq<Message>>, row: Message)
    requires row in MergeMessages(lists)
    ensures exists m :: m in Concat(lists) && ShowsContentOf(row, m)
  {
    var groups := MergeAll(Concat(lists));
    RowsShowInputs(Concat(lists));
    var i :| 0 <= i < |groups| && groups[i].message == row;
    assert groups[i] in groups;
  }

  /** Each canonical id and each alias of the inputs names exactly one row, unless it happens to be the written reference
      of an input that has no canonical id. */
  lemma EachNameOnce(lists: seq<seq<Message>>, c: string) returns (r: nat)
    requires (exists m :: m in Concat(lists) && Named(m, c)) && NoReference(lists, c)
    ensures r < |MergeMessages(lists)| && Named(MergeMessages(lists)[r], c)
    ensures forall i :: 0 <= i < |MergeMessages(lists)| && Named(MergeMessages(lists)[i], c) ==> i == r
  {
    hide Named, KnownByReference, IdentityKeys, MergeMessages, Concat;
    var rows := MergeMessages(lists);
    var m :| m in Concat(lists) && Named(m, c);
    KeysByFields(m, c);
    RowsPartitionIdentities(lists);
    assert Known(Concat(lists), c);
    var row :| row in rows && c in IdentityKeys(row);
    r :| 0 <= r < |rows| && rows[r] == row;
    KeysByFields(row, c);
    RowFromInput(lists, row);
    var input :| input in Concat(lists) && ShowsContentOf(row, input);
    assert KnownByReference(row, c) ==> KnownByReference(input, c) by { SameReference(row, input, c); }
    forall i | 0 <= i < |rows| && Named(rows[i], c)
      ensures i == r
    {
      KeysByFields(rows[i], c);
      assert Touches(rows[i], rows[r]) && Touches(rows[r], rows[i]);
    }
  }

  lemma SameReference(row: Message, input: Message, text: string)
    requires ShowsContentOf(row, input)
    ensures KnownByReference(row, text) <==> KnownByReference(input, text)
  {
  }

  // Messages without aliases.

  ghost predicate NoAliases(m: Message) {
    m.canonicalAliases.None? || m.canonicalAliases == Some([])
  }

  /** Two messages without aliases are the same one: they have the same canonical id, or neither has one and the written
      references agree, or one has the written reference of the other as its canonical id. */
  ghost predicate SameOne(m: Message, n: Message) {
    exists k :: (m.canonicalId == Some(k) || KnownByReference(m, k)) && (n.canonicalId == Some(k) || KnownByReference(n, k))
  }

  lemma SameOneIsSameKey(m: Message, n: Message)
    ensures SameOne(m, n) <==> MessageKey(m) == MessageKey(n)
  {
    if MessageKey(m) == MessageKey(n) {
      var k := MessageKey(m);
      assert m.canonicalId == Some(k) || KnownByReference(m, k);
      assert n.canonicalId == Some(k) || KnownByReference(n, k);
    }
  }

  /** `positions` are the places where a message appears for the first time, in order. */
  ghost predicate FirstPlaces(messages: seq<Message>, positions: seq<nat>) {
    && (forall i :: 0 <= i < |positions| ==> positions[i] < |messages|)
    && (forall i, j :: 0 <= i < j < |positions| ==> positions[i] < positions[j])
    && (forall i, j :: 0 <= i < j < |positions| ==> !SameOne(messages[positions[i]], messages[positions[j]]))
    && (forall p :: 0 <= p < |messages| ==> Appeared(messages, positions, p))
  }

  ghost predicate Appeared(messages: seq<Message>, positions: seq<nat>, p: nat)
    requires p < |messages|
  {
    exists i :: AppearedAs(messages, positions, p, i)
  }

  ghost predicate AppearedAs(messages: seq<Message>, positions: seq<nat>, p: nat, i: nat)
    requires p < |messages|
  {
    i < |positions| && positions[i] <= p && SameOne(messages[positions[i]], messages[p])
  }

  /** A group that consists of this one message. */
  ghost predicate Alone(g: Group, m: Message) {
    g.message == m && g.identities == [MessageKey(m)] && NoAliases(m)
  }

  lemma AloneOverlaps(g: Group, m: Message, n: Message)
    requires Alone(g, m) && NoAliases(n)
    ensures Overlap(IdentityKeys(n), g.identities) <==> MessageKey(m) == MessageKey(n)
  {
    assert IdentityKeys(n) == [MessageKey(n)];
    if MessageKey(m) == MessageKey(n) { assert MessageKey(n) in IdentityKeys(n) && MessageKey(n) in g.identities; }
  }

  lemma OneIdentity(key: string)
    ensures Unique([key] + [key]) == [key] && Without([key], key) == []
  {
    assert ([key] + [key])[..1] == [key] && [key][..0] == [];
  }

  lemma IdentitiesAlone(g: Group, m: Message)
    requires Alone(g, m)
    ensures AllIdentities([g]) == [MessageKey(m)]
  {
    assert [g][..0] == [] && AllIdentities([g][..0]) == [];
  }

  lemma RepresentativeAlone(m: Message, n: Message)
    requires NoAliases(m) && NoAliases(n)
    ensures Representative([m] + [n]) == m
  {
    assert ([m] + [n])[..1] == [m] && [m][..0] == [];
    assert AllAliases([m]) == [] && AllAliases([m] + [n]) == [];
  }

  /** Merging a message into the group of an equal one changes nothing. */
  lemma MergedAlone(g: Group, m: Message, n: Message)
    requires Alone(g, m) && NoAliases(n) && MessageKey(m) == MessageKey(n)
    ensures MergedGroup([g], n) == g
  {
    var key := MessageKey(m);
    IdentitiesAlone(g, m);
    OneIdentity(key);
    RepresentativeAlone(m, n);
    assert IdentityKeys(n) == [key];
    assert MessagesOf([g]) == [m];
    hide Unique, AllIdentities, Representative, Without, MessageKey, IdentityKeys;
  }

  lemma {:induction false} MatchedNone(groups: seq<Group>, keys: seq<string>)
    requires forall i :: 0 <= i < |groups| ==> !Overlap(keys, groups[i].identities)
    ensures Matched(groups, keys) == [] && Unmatched(groups, keys) == groups
  {
    MatchedNoneFront(groups, keys);
    if groups != [] {
      MatchedNone(groups[1..], keys);
      assert groups == [groups[0]] + groups[1..];
    }
  }

  lemma {:induction false} MatchedNoneFront(groups: seq<Group>, keys: seq<string>)
    requires forall i :: 0 <= i < |groups| ==> !Overlap(keys, groups[i].identities)
    ensures Matched(groups, keys) == []
  {
    if groups != [] { MatchedNoneFront(groups[..|groups| - 1], keys); }
  }

  lemma {:induction false} MatchedOne(groups: seq<Group>, keys: seq<string>, r: nat)
    requires r < |groups| && forall i :: 0 <= i < |groups| ==> (Overlap(keys, groups[i].identities) <==> i == r)
    ensures Matched(groups, keys) == [groups[r]]
  {
    hide Overlap;
    var n := |groups| - 1;
    if r == n {
      MatchedNoneFront(groups[..n], keys);
    } else {
      MatchedOne(groups[..n], keys, r);
    }
  }

  lemma {:induction false} ReplacedBySame(groups: seq<Group>, keys: seq<string>, r: nat)
    requires r < |groups| && forall i :: 0 <= i < |groups| ==> (Overlap(keys, groups[i].identities) <==> i == r)
    ensures Replaced(groups, keys, groups[r]) == groups
  {
    hide Overlap;
    if r == 0 {
      MatchedNone(groups[1..], keys);
    } else {
      ReplacedBySame(groups[1..], keys, r - 1);
    }
    assert groups == [groups[0]] + groups[1..];
  }

  ghost predicate AllAlone(groups: seq<Group>, messages: seq<Message>, positions: seq<nat>) {
    |groups| == |positions| && forall i :: 0 <= i < |positions| ==> positions[i] < |messages| && Alone(groups[i], messages[positions[i]])
  }

  lemma OverlapsIffSame(groups: seq<Group>, messages: seq<Message>, positions: seq<nat>, m: Message)
    requires AllAlone(groups, messages, positions) && NoAliases(m)
    ensures forall i :: 0 <= i < |positions| ==> (Overlap(IdentityKeys(m), groups[i].identities) <==> SameOne(messages[positions[i]], m))
  {
    forall i | 0 <= i < |positions|
      ensures Overlap(IdentityKeys(m), groups[i].identities) <==> SameOne(messages[positions[i]], m)
    {
      AloneOverlaps(groups[i], messages[positions[i]], m);
      SameOneIsSameKey(messages[positions[i]], m);
    }
  }

  lemma MergeKnown(groups: seq<Group>, messages: seq<Message>, positions: seq<nat>, m: Message, r: nat)
    requires AllAlone(groups, messages, positions) && NoAliases(m) && r < |positions| && SameOne(messages[positions[r]], m)
    requires forall i, j :: 0 <= i < j < |positions| ==> !SameOne(messages[positions[i]], messages[positions[j]])
    ensures MergeGroup(groups, m) == groups
  {
    hide SameOne, Overlap, Matched, Replaced, MergedGroup, Alone, NoAliases, IdentityKeys;
    OverlapsIffSame(groups, messages, positions, m);
    forall i | 0 <= i < |positions| && SameOne(messages[positions[i]], m)
      ensures i == r
    {
      SameOneTwice(messages[positions[i]], messages[positions[r]], m);
    }
    SameOneIsSameKey(messages[positions[r]], m);
    MatchedOne(groups, IdentityKeys(m), r);
    MergedAlone(groups[r], messages[positions[r]], m);
    ReplacedBySame(groups, IdentityKeys(m), r);
  }

  lemma MergeNew(groups: seq<Group>, messages: seq<Message>, positions: seq<nat>, m: Message)
    requires AllAlone(groups, messages, positions) && NoAliases(m)
    requires forall i :: 0 <= i < |positions| ==> !SameOne(messages[positions[i]], m)
    ensures exists g :: Alone(g, m) && MergeGroup(groups, m) == groups + [g]
  {
    hide SameOne, Overlap, Matched, Replaced, MergedGroup, Alone, NoAliases, IdentityKeys;
    OverlapsIffSame(groups, messages, positions, m);
    MatchedNone(groups, IdentityKeys(m));
    AloneItself(m);
    assert MergeGroup(groups, m) == groups + [Group(m, Unique(IdentityKeys(m)))];
  }

  /** Without aliases the rows are the first appearances of the messages, unchanged and in order. */
  lemma {:induction false} FirstAppearances(messages: seq<Message>) returns (positions: seq<nat>)
    requires forall m :: m in messages ==> NoAliases(m)
    ensures FirstPlaces(messages, positions) && AllAlone(MergeAll(messages), messages, positions)
  {
    hide SameOne, MergeGroup, NoAliases, FirstPlaces, Alone;
    if messages == [] {
      positions := [];
      NoPlaces();
    } else {
      var n := |messages| - 1;
      var m, groups := messages[n], MergeAll(messages[..n]);
      var before := FirstAppearances(messages[..n]);
      assert AllAlone(groups, messages, before);
      if r :| 0 <= r < |before| && SameOne(messages[before[r]], m) {
        positions := before;
        PlacesApart(messages, before);
        MergeKnown(groups, messages, before, m, r);
        KnownPlaces(messages, before, r);
      } else {
        positions := before + [n];
        MergeNew(groups, messages, before, m);
        NewPlace(messages, before);
      }
    }
  }

  lemma NoPlaces()
    ensures FirstPlaces([], [])
  {
  }

  lemma PlacesApart(messages: seq<Message>, positions: seq<nat>)
    requires messages != [] && FirstPlaces(messages[..|messages| - 1], positions)
    ensures forall i :: 0 <= i < |positions| ==> positions[i] < |messages| - 1
    ensures forall i, j :: 0 <= i < j < |positions| ==> !SameOne(messages[positions[i]], messages[positions[j]])
  {
    hide SameOne;
    assert forall i :: 0 <= i < |positions| ==> messages[..|messages| - 1][positions[i]] == messages[positions[i]];
  }

  lemma SameOneTwice(m: Message, n: Message, x: Message)
    requires SameOne(m, x) && SameOne(n, x)
    ensures SameOne(m, n) && SameOne(n, m)
  {
    SameOneIsSameKey(m, x);
    SameOneIsSameKey(n, x);
    SameOneIsSameKey(m, n);
    SameOneIsSameKey(n, m);
  }

  lemma AloneItself(m: Message)
    requires NoAliases(m)
    ensures Alone(Group(m, Unique(IdentityKeys(m))), m)
  {
    assert IdentityKeys(m) == [MessageKey(m)];
    assert [MessageKey(m)][..0] == [];
  }

  lemma StillAppeared(messages: seq<Message>, positions: seq<nat>, more: seq<nat>, p: nat)
    requires messages != [] && p < |messages| - 1 && Appeared(messages[..|messages| - 1], positions, p)
    requires |positions| <= |more| && more[..|positions|] == positions
    ensures Appeared(messages, more, p)
  {
    hide SameOne;
    var i: nat :| AppearedAs(messages[..|messages| - 1], positions, p, i);
    assert more[i] == more[..|positions|][i];
    assert AppearedAs(messages, more, p, i);
  }

  lemma KnownPlaces(messages: seq<Message>, positions: seq<nat>, r: nat)
    requires messages != [] && FirstPlaces(messages[..|messages| - 1], positions)
    requires r < |positions| && positions[r] < |messages| && SameOne(messages[positions[r]], messages[|messages| - 1])
    ensures FirstPlaces(messages, positions)
  {
    hide SameOne, Appeared;
    var n := |messages| - 1;
    PlacesApart(messages, positions);
    forall p | 0 <= p < |messages|
      ensures Appeared(messages, positions, p)
    {
      if p < n { StillAppeared(messages, positions, positions, p); } else { AppearsAs(messages, positions, p, r); }
    }
  }

  lemma AppearsAs(messages: seq<Message>, positions: seq<nat>, p: nat, i: nat)
    requires p < |messages| && AppearedAs(messages, positions, p, i)
    ensures Appeared(messages, positions, p)
  {
  }

  lemma NewPlace(messages: seq<Message>, positions: seq<nat>)
    requires messages != [] && FirstPlaces(messages[..|messages| - 1], positions)
    requires forall i :: 0 <= i < |positions| ==> positions[i] < |messages| && !SameOne(messages[positions[i]], messages[|messages| - 1])
    ensures FirstPlaces(messages, positions + [|messages| - 1])
  {
    var n := |messages| - 1;
    SameOneIsSameKey(messages[n], messages[n]);
    hide SameOne, Appeared;
    var more := positions + [n];
    PlacesApart(messages, positions);
    forall p | 0 <= p < |messages|
      ensures Appeared(messages, more, p)
    {
      if p < n { StillAppeared(messages, positions, more, p); } else { AppearsAs(messages, more, p, |positions|); }
    }
  }

  /** A list of messages without aliases is merged by leaving out whatever is the same as an earlier message. */
  lemma WithoutAliases(lists: seq<seq<Message>>) returns (positions: seq<nat>)
    requires forall m :: m in Concat(lists) ==> NoAliases(m)
    ensures FirstPlaces(Concat(lists), positions) && |MergeMessages(lists)| == |positions|
    ensures forall i :: 0 <= i < |positions| ==> MergeMessages(lists)[i] == Concat(lists)[positions[i]]
  {
    positions := FirstAppearances(Concat(lists));
    assert forall i :: 0 <= i < |positions| ==> Alone(MergeAll(Concat(lists))[i], Concat(lists)[positions[i]]);
  }

  // Written references.

  lemma {:induction false} DecimalDigits(n: nat)
    ensures ':' !in Decimal(n) && |Decimal(n)| >= 1 && (|Decimal(n)| == 1 <==> n < 10)
  {
    if n >= 10 { DecimalDigits(n / 10); }
  }

  lemma {:induction false} DecimalInjective(m: nat, n: nat)
    requires Decimal(m) == Decimal(n)
    ensures m == n
  {
    DecimalDigits(m);
    DecimalDigits(n);
    var s, t := Decimal(m), Decimal(n);
    assert s[|s| - 1] == t[|t| - 1];
    LastDigit(m);
    LastDigit(n);
    if m >= 10 {
      assert Decimal(m / 10) == s[..|s| - 1] == Decimal(n / 10);
      DecimalInjective(m / 10, n / 10);
    }
  }

  lemma LastDigit(n: nat)
    ensures Decimal(n) != [] && Decimal(n)[|Decimal(n)| - 1] == "0123456789"[n % 10]
    ensures n >= 10 ==> Decimal(n / 10) == Decimal(n)[..|Decimal(n)| - 1]
  {
  }

  lemma FirstColon(a: string, b: string, s: string, t: string)
    requires a + ":" + s == b + ":" + t && ':' !in a && ':' !in b
    ensures a == b && s == t
  {
    var text := a + ":" + s;
    assert text[|a|] == ':' && (b + ":" + t)[|b|] == ':';
    assert forall i :: 0 <= i < |a| ==> text[i] == a[i];
    assert forall i :: 0 <= i < |b| ==> text[i] == b[i];
    assert a == text[..|a|] && b == (b + ":" + t)[..|b|];
    assert s == text[|a| + 1..] && t == (b + ":" + t)[|b| + 1..];
  }

  ghost predicate WithoutColons(ref: MessageRef) {
    ':' !in ref.accountId && ':' !in ref.mailbox && ':' !in ref.uidValidity
  }

  /** References without colons are told apart by what is written. */
  lemma SameOneIsSameReference(m: Message, n: Message)
    requires m.canonicalId.None? && n.canonicalId.None? && WithoutColons(m.ref) && WithoutColons(n.ref)
    ensures SameOne(m, n) <==> m.ref == n.ref
  {
    var r, s := m.ref, n.ref;
    if SameOne(m, n) {
      var u, v := Decimal(r.uid), Decimal(s.uid);
      assert r.accountId + ":" + r.mailbox + ":" + r.uidValidity + ":" + u == r.accountId + ":" + (r.mailbox + ":" + (r.uidValidity + ":" + u));
      assert s.accountId + ":" + s.mailbox + ":" + s.uidValidity + ":" + v == s.accountId + ":" + (s.mailbox + ":" + (s.uidValidity + ":" + v));
      FirstColon(r.accountId, s.accountId, r.mailbox + ":" + (r.uidValidity + ":" + u), s.mailbox + ":" + (s.uidValidity + ":" + v));
      FirstColon(r.mailbox, s.mailbox, r.uidValidity + ":" + u, s.uidValidity + ":" + v);
      FirstColon(r.uidValidity, s.uidValidity, u, v);
      DecimalInjective(r.uid, s.uid);
    }
    if r == s { SameOneIsSameKey(m, n); }
  }

  /** Messages with neither canonical ids nor aliases give one row for each different reference. */
  lemma OneRowPerReference(lists: seq<seq<Message>>, m: Message) returns (r: nat)
    requires forall x :: x in Concat(lists) ==> NoAliases(x) && x.canonicalId.None? && WithoutColons(x.ref)
    requires m in Concat(lists)
    ensures r < |MergeMessages(lists)| && MergeMessages(lists)[r].ref == m.ref
    ensures forall i :: 0 <= i < |MergeMessages(lists)| && MergeMessages(lists)[i].ref == m.ref ==> i == r
  {
    hide SameOne, MergeMessages, Concat, WithoutColons, NoAliases, Appeared;
    var messages, rows := Concat(lists), MergeMessages(lists);
    var positions := WithoutAliases(lists);
    var p :| 0 <= p < |messages| && messages[p] == m;
    r := PlaceOf(messages, positions, p);
    SameOneIsSameReference(messages[positions[r]], m);
    forall i | 0 <= i < |rows| && rows[i].ref == m.ref
      ensures i == r
    {
      SameOneIsSameReference(messages[positions[i]], messages[positions[r]]);
      SameOneIsSameReference(messages[positions[r]], messages[positions[i]]);
    }
  }

  lemma PlaceOf(messages: seq<Message>, positions: seq<nat>, p: nat) returns (r: nat)
    requires FirstPlaces(messages, positions) && p < |messages|
    ensures r < |positions| && positions[r] < |messages| && SameOne(messages[positions[r]], messages[p])
  {
    hide SameOne;
    assert Appeared(messages, positions, p);
    r :| AppearedAs(messages, positions, p, r);
  }

  // Which message a row shows.

  /** One of the two lists, among its aliases, what identifies `x`. */
  ghost predicate AliasedBy(x: Message, m: Message, n: Message) {
    exists k :: (x.canonicalId == Some(k) || KnownByReference(x, k)) && (HasAlias(m, k) || HasAlias(n, k))
  }

  lemma AliasedIsListed(x: Message, m: Message, n: Message)
    ensures AliasedBy(x, m, n) <==> MessageKey(x) in AllAliases([m] + [n])
  {
    assert ([m] + [n])[..1] == [m] && [m][..0] == [];
    assert AllAliases([m]) == [] + AliasesOf(m) == AliasesOf(m);
    assert AllAliases([m] + [n]) == AliasesOf(m) + AliasesOf(n);
    var k := MessageKey(x);
    if k in AliasesOf(m) + AliasesOf(n) {
      assert x.canonicalId == Some(k) || KnownByReference(x, k);
      assert HasAlias(m, k) || HasAlias(n, k);
    }
  }

  lemma FirstOfTwo(m: Message, n: Message)
    ensures Representative([m] + [n]) ==
      if !AliasedBy(m, m, n) then m else if !AliasedBy(n, m, n) then n else m
  {
    hide AliasedBy, AllAliases, MessageKey;
    AliasedIsListed(m, m, n);
    AliasedIsListed(n, m, n);
    assert ([m] + [n])[1..] == [n] && [n][1..] == [];
  }

  /** Two messages that share an identity become one row. It shows the first one, unless that is listed as an alias and the
      other one is not; and it lists all their other identities as aliases. */
  lemma RowOfTwo(m: Message, n: Message)
    requires exists k :: (Named(m, k) || KnownByReference(m, k)) && (Named(n, k) || KnownByReference(n, k))
    ensures var rows, shown := MergeMessages([[m], [n]]), if AliasedBy(m, m, n) && !AliasedBy(n, m, n) then n else m;
      && |rows| == 1 && ShowsContentOf(rows[0], shown)
      && forall k :: HasAlias(rows[0], k) <==>
           (Named(m, k) || KnownByReference(m, k) || Named(n, k) || KnownByReference(n, k)) && shown.canonicalId != Some(k) && !KnownByReference(shown, k)
  {
    var shown := if AliasedBy(m, m, n) && !AliasedBy(n, m, n) then n else m;
    TouchesByFields(m, n);
    FirstOfTwo(m, n);
    var row := Coherent(shown, Unique(IdentityKeys(m) + IdentityKeys(n)));
    MergedTwo(m, n, shown);
    forall k
      ensures HasAlias(row, k) <==>
        (Named(m, k) || KnownByReference(m, k) || Named(n, k) || KnownByReference(n, k)) && shown.canonicalId != Some(k) && !KnownByReference(shown, k)
    {
      KeysByFields(m, k);
      KeysByFields(n, k);
      CoherentAliases(shown, Unique(IdentityKeys(m) + IdentityKeys(n)), k);
    }
  }

  lemma CoherentAliases(shown: Message, identities: seq<string>, k: string)
    ensures HasAlias(Coherent(shown, identities), k) <==> k in identities && shown.canonicalId != Some(k) && !KnownByReference(shown, k)
  {
  }

  lemma MergedTwo(m: Message, n: Message, shown: Message)
    requires Touches(m, n) && Representative([m] + [n]) == shown
    ensures MergeMessages([[m], [n]]) == [Coherent(shown, Unique(IdentityKeys(m) + IdentityKeys(n)))]
  {
    hide Unique, Representative, Coherent, IdentityKeys, Overlap, MergedGroup, MergeGroup;
    TwoInputs(m, n);
    FirstAlone(m);
    TouchesBack(m, n);
    SharedWithFirst(m, n);
    var first := Group(m, Unique(IdentityKeys(m)));
    JoinsOnly(first, n);
    JoinedTwo(m, n, shown);
    assert [m, n][..1] == [m];
  }

  /** A message that matches the only group is merged into it. */
  lemma JoinsOnly(g: Group, n: Message)
    requires Overlap(IdentityKeys(n), g.identities)
    ensures MergeGroup([g], n) == [MergedGroup([g], n)]
  {
    hide Overlap, MergedGroup, IdentityKeys;
    MatchedOne([g], IdentityKeys(n), 0);
    assert [g][1..] == [] && Unmatched([], IdentityKeys(n)) == [];
  }

  lemma JoinedTwo(m: Message, n: Message, shown: Message)
    requires Representative([m] + [n]) == shown
    ensures MergedGroup([Group(m, Unique(IdentityKeys(m)))], n).message == Coherent(shown, Unique(IdentityKeys(m) + IdentityKeys(n)))
  {
    hide Unique, Representative, Coherent, IdentityKeys, AllIdentities;
    var first := Group(m, Unique(IdentityKeys(m)));
    IdentitiesOfOne(first);
    UniqueSum(IdentityKeys(m), IdentityKeys(n));
    assert MessagesOf([first]) == [m];
  }

  lemma TwoInputs(m: Message, n: Message)
    ensures Concat([[m], [n]]) == [m, n]
  {
    var lists := [[m], [n]];
    assert lists[..1] == [[m]] && [[m]][..0] == [];
    assert Concat([[m]]) == [] + [m];
  }

  lemma FirstAlone(m: Message)
    ensures MergeAll([m]) == [Group(m, Unique(IdentityKeys(m)))]
  {
    assert [m][..0] == [];
    assert Matched([], IdentityKeys(m)) == [];
  }

  lemma SharedWithFirst(m: Message, n: Message)
    requires Touches(n, m)
    ensures Overlap(IdentityKeys(n), Unique(IdentityKeys(m)))
  {
  }

  lemma IdentitiesOfOne(g: Group)
    ensures AllIdentities([g]) == g.identities
  {
    assert [g][..0] == [] && AllIdentities([g][..0]) == [];
  }
}
