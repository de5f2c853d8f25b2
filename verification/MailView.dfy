/** `mergeMessages`: rows of a unified list, one per message however many accounts and aliases it is known by. */
module MailView {
  import opened Orders
  import opened PriorityQueue

  datatype MessageRef = MessageRef(accountId: string, mailbox: string, uidValidity: string, uid: nat)

  datatype Message = Message(canonicalId: Option<string>, ref: MessageRef, canonicalAliases: Option<seq<string>>)

  /** The message shown for a set of identities; `identities` keeps the insertion order of the source's Set. */
  datatype Group = Group(message: Message, identities: seq<string>)

  function Decimal(n: nat): string {
    var digit := ["0", "1", "2", "3", "4", "5", "6", "7", "8", "9"][n % 10];
    if n < 10 then digit else Decimal(n / 10) + digit
  }

  function MessageKey(message: Message): string {
    match message.canonicalId
    case Some(id) => id
    case None => message.ref.accountId + ":" + message.ref.mailbox + ":" + message.ref.uidValidity + ":" + Decimal(message.ref.uid)
  }

  function AliasesOf(message: Message): seq<string> {
    match message.canonicalAliases case Some(aliases) => aliases case None => []
  }

  function IdentityKeys(message: Message): seq<string> {
    [MessageKey(message)] + AliasesOf(message)
  }

  predicate Overlap(keys: seq<string>, identities: seq<string>) {
    exists k :: k in keys && k in identities
  }

  /** The groups that share an identity with the incoming message, in order. */
  function Matched(groups: seq<Group>, keys: seq<string>): (r: seq<Group>)
    ensures forall g :: g in r <==> g in groups && Overlap(keys, g.identities)
  {
    if groups == [] then []
    else
      var front := Matched(groups[..|groups| - 1], keys);
      assert forall g :: g in groups <==> g in groups[..|groups| - 1] || g == groups[|groups| - 1];
      if Overlap(keys, groups[|groups| - 1].identities) then front + [groups[|groups| - 1]] else front
  }

  function AllIdentities(groups: seq<Group>): (r: seq<string>)
    ensures forall k :: k in r <==> exists g :: g in groups && k in g.identities
  {
    if groups == [] then []
    else
      assert forall g :: g in groups <==> g in groups[..|groups| - 1] || g == groups[|groups| - 1];
      AllIdentities(groups[..|groups| - 1]) + groups[|groups| - 1].identities
  }

  function MessagesOf(groups: seq<Group>): (r: seq<Message>)
    ensures |r| == |groups| && forall i :: 0 <= i < |groups| ==> r[i] == groups[i].message
  {
    seq(|groups|, i requires 0 <= i < |groups| => groups[i].message)
  }

  function AllAliases(candidates: seq<Message>): seq<string> {
    if candidates == [] then [] else AllAliases(candidates[..|candidates| - 1]) + AliasesOf(candidates[|candidates| - 1])
  }

  /** The first candidate that no candidate lists as an alias. */
  function FirstUnaliased(candidates: seq<Message>, aliases: seq<string>): (r: Option<Message>)
    ensures r.Some? ==> r.value in candidates && MessageKey(r.value) !in aliases
    ensures r.None? ==> forall c :: c in candidates ==> MessageKey(c) in aliases
  {
    if candidates == [] then None
    else if MessageKey(candidates[0]) !in aliases then Some(candidates[0])
    else FirstUnaliased(candidates[1..], aliases)
  }

  function Representative(candidates: seq<Message>): (r: Message)
    requires candidates != []
    ensures r in candidates
    ensures (exists c :: c in candidates && MessageKey(c) !in AllAliases(candidates)) ==> MessageKey(r) !in AllAliases(candidates)
  {
    match FirstUnaliased(candidates, AllAliases(candidates)) case Some(c) => c case None => candidates[0]
  }

  function Without(identities: seq<string>, key: string): (r: seq<string>)
    ensures forall k :: k in r <==> k in identities && k != key
  {
    if identities == [] then []
    else
      var front, last := Without(identities[..|identities| - 1], key), identities[|identities| - 1];
      assert forall k :: k in identities <==> k in identities[..|identities| - 1] || k == last;
      if last == key then front else front + [last]
  }

  /** The representative with the group's other identities as its aliases. */
  function Coherent(representative: Message, identities: seq<string>): Message {
    var aliases := Without(identities, MessageKey(representative));
    if AliasesOf(representative) == aliases then representative else representative.(canonicalAliases := Some(aliases))
  }

  function MergedGroup(matched: seq<Group>, message: Message): Group {
    var identities := Unique(AllIdentities(matched) + IdentityKeys(message));
    Group(Coherent(Representative(MessagesOf(matched) + [message]), identities), identities)
  }

  /** Puts `merged` where the first matching group stands and drops the other matching ones. */
  function Replaced(groups: seq<Group>, keys: seq<string>, merged: Group): seq<Group> {
    if groups == [] then []
    else if Overlap(keys, groups[0].identities) then [merged] + Unmatched(groups[1..], keys)
    else [groups[0]] + Replaced(groups[1..], keys, merged)
  }

  function Unmatched(groups: seq<Group>, keys: seq<string>): seq<Group> {
    if groups == [] then []
    else if Overlap(keys, groups[0].identities) then Unmatched(groups[1..], keys)
    else [groups[0]] + Unmatched(groups[1..], keys)
  }

  /** `mergeIdentityGroups`. */
  function MergeGroup(groups: seq<Group>, message: Message): seq<Group> {
    var keys := IdentityKeys(message);
    var matched := Matched(groups, keys);
    if matched == [] then groups + [Group(message, Unique(keys))]
    else Replaced(groups, keys, MergedGroup(matched, message))
  }

  function MergeAll(messages: seq<Message>): seq<Group> {
    if messages == [] then [] else MergeGroup(MergeAll(messages[..|messages| - 1]), messages[|messages| - 1])
  }

  function Concat(lists: seq<seq<Message>>): seq<Message> {
    if lists == [] then [] else Concat(lists[..|lists| - 1]) + lists[|lists| - 1]
  }

  function MergeMessages(lists: seq<seq<Message>>): seq<Message> {
    MessagesOf(MergeAll(Concat(lists)))
  }

  method SharesAny(keys: seq<string>, identities: seq<string>) returns (shared: bool)
    ensures shared <==> Overlap(keys, identities)
  {
    shared := false;
    for k := 0 to |keys|
      invariant shared <==> exists l :: 0 <= l < k && keys[l] in identities
    {
      if keys[k] in identities { shared := true; }
    }
  }

  lemma NoneMatched(groups: seq<Group>, keys: seq<string>)
    ensures Picked(groups, []) == Matched(groups[..0], keys)
  {
  }

  lemma MatchedStep(groups: seq<Group>, matched: seq<nat>, keys: seq<string>, i: nat)
    requires i < |groups| && forall k :: 0 <= k < |matched| ==> matched[k] < i
    requires Picked(groups, matched) == Matched(groups[..i], keys)
    ensures Picked(groups, if Overlap(keys, groups[i].identities) then matched + [i] else matched) == Matched(groups[..i + 1], keys)
  {
    assert groups[..i + 1][..i] == groups[..i];
    if Overlap(keys, groups[i].identities) {
      assert Picked(groups, matched + [i]) == Picked(groups, matched) + [groups[i]];
    }
  }

  /** The indices of the groups that share an identity with the incoming message. */
  method FindMatched(groups: seq<Group>, incoming: seq<string>) returns (matched: seq<nat>)
    ensures forall k :: 0 <= k < |matched| ==> matched[k] < |groups|
    ensures forall k, l :: 0 <= k < l < |matched| ==> matched[k] < matched[l]
    ensures forall i :: 0 <= i < |groups| ==> (i in matched <==> Overlap(incoming, groups[i].identities))
    ensures Picked(groups, matched) == Matched(groups, incoming)
  {
    hide Overlap, Matched, Picked;
    matched := [];
    NoneMatched(groups, incoming);
    for i := 0 to |groups|
      invariant forall k :: 0 <= k < |matched| ==> matched[k] < i
      invariant forall k, l :: 0 <= k < l < |matched| ==> matched[k] < matched[l]
      invariant forall k :: 0 <= k < i ==> (k in matched <==> Overlap(incoming, groups[k].identities))
      invariant Picked(groups, matched) == Matched(groups[..i], incoming)
    {
      MatchedStep(groups, matched, incoming, i);
      var shared := SharesAny(incoming, groups[i].identities);
      if shared { matched := matched + [i]; }
    }
    assert groups[..|groups|] == groups;
  }

  /** The loops of `mergeIdentityGroups`: collects the identities and candidates of the matching groups, then
      rebuilds the list around the merged one. */
  method MergeIdentityGroups(groups: seq<Group>, message: Message) returns (merged: seq<Group>)
    ensures merged == MergeGroup(groups, message)
  {
    hide Overlap, Matched, AllIdentities, Coherent, Representative, Replaced, Unique;
    var incoming := IdentityKeys(message);
    var matched := FindMatched(groups, incoming);
    if |matched| == 0 { return groups + [Group(message, Unique(incoming))]; }

    var identities: seq<string>, candidates: seq<Message> := [], [];
    NoneCollected();
    for k := 0 to |matched|
      invariant identities == Unique(AllIdentities(Picked(groups, matched[..k])))
      invariant candidates == MessagesOf(Picked(groups, matched[..k]))
    {
      var group := groups[matched[k]];
      PickedStep(groups, matched, k);
      UniqueSum(AllIdentities(Picked(groups, matched[..k])), group.identities);
      identities := Unique(identities + group.identities);
      candidates := candidates + [group.message];
    }
    assert matched[..|matched|] == matched;
    UniqueSum(AllIdentities(Picked(groups, matched)), incoming);
    identities := Unique(identities + incoming);
    candidates := candidates + [message];
    merged := Rebuild(groups, incoming, matched, Group(Coherent(Representative(candidates), identities), identities));
  }

  lemma NoneCollected()
    ensures Unique(AllIdentities([])) == []
  {
  }

  function Picked(groups: seq<Group>, indices: seq<nat>): (r: seq<Group>)
    requires forall k :: 0 <= k < |indices| ==> indices[k] < |groups|
    ensures |r| == |indices|
  {
    seq(|indices|, k requires 0 <= k < |indices| => groups[indices[k]])
  }

  lemma PickedStep(groups: seq<Group>, indices: seq<nat>, k: nat)
    requires k < |indices| && forall i :: 0 <= i < |indices| ==> indices[i] < |groups|
    ensures Picked(groups, indices[..k + 1]) == Picked(groups, indices[..k]) + [groups[indices[k]]]
    ensures AllIdentities(Picked(groups, indices[..k + 1])) == AllIdentities(Picked(groups, indices[..k])) + groups[indices[k]].identities
  {
    var longer := Picked(groups, indices[..k + 1]);
    assert longer[..k] == Picked(groups, indices[..k]);
  }

  /** Adding to a Set one batch at a time is adding everything at once. */
  lemma {:induction false} UniqueSum(a: seq<string>, b: seq<string>)
    ensures Unique(Unique(a) + b) == Unique(a + b)
  {
    if b == [] {
      UniqueOfDistinct(Unique(a));
      assert Unique(a) + b == Unique(a) && a + b == a;
    } else {
      UniqueSum(a, b[..|b| - 1]);
      assert (a + b)[..|a + b| - 1] == a + b[..|b| - 1];
      assert (Unique(a) + b)[..|Unique(a) + b| - 1] == Unique(a) + b[..|b| - 1];
    }
  }

  /** The closing `flatMap`: the merged group takes the place of the first matching one. */
  method Rebuild(groups: seq<Group>, keys: seq<string>, matched: seq<nat>, merged: Group) returns (rebuilt: seq<Group>)
    requires matched != [] && forall k, l :: 0 <= k < l < |matched| ==> matched[k] < matched[l]
    requires forall k :: 0 <= k < |matched| ==> matched[k] < |groups|
    requires forall i :: 0 <= i < |groups| ==> (i in matched <==> Overlap(keys, groups[i].identities))
    ensures rebuilt == Replaced(groups, keys, merged)
  {
    rebuilt := [];
    assert groups[0..] == groups;
    for i := 0 to |groups|
      invariant i <= matched[0] ==> rebuilt + Replaced(groups[i..], keys, merged) == Replaced(groups, keys, merged)
      invariant i > matched[0] ==> rebuilt + Unmatched(groups[i..], keys) == Replaced(groups, keys, merged)
    {
      ghost var before := rebuilt;
      assert groups[i..][0] == groups[i] && groups[i..][1..] == groups[i + 1..];
      FirstMatched(matched, i);
      if i == matched[0] {
        rebuilt := rebuilt + [merged];
        assert before + ([merged] + Unmatched(groups[i + 1..], keys)) == rebuilt + Unmatched(groups[i + 1..], keys);
      } else if i !in matched {
        rebuilt := rebuilt + [groups[i]];
        assert before + ([groups[i]] + Unmatched(groups[i + 1..], keys)) == rebuilt + Unmatched(groups[i + 1..], keys);
        assert before + ([groups[i]] + Replaced(groups[i + 1..], keys, merged)) == rebuilt + Replaced(groups[i + 1..], keys, merged);
      }
    }
    assert groups[|groups|..] == [];
  }

  lemma FirstMatched(matched: seq<nat>, i: nat)
    requires matched != [] && forall k, l :: 0 <= k < l < |matched| ==> matched[k] < matched[l]
    ensures matched[0] in matched
    ensures i < matched[0] ==> i !in matched
  {
  }
}
