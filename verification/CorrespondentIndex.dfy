/** The triggers that run `add`, `remove` and `rebuild`, and what the table is after any run of statements. */
module CorrespondentIndex {
  import opened Orders
  import opened PriorityQueue
  import opened Correspondents

  lemma AddedNone(table: map<Correspondent, Row>, key: MessageKey, sent: bool)
    ensures Added(table, key, {}, sent) == table
  {
  }

  lemma AddedOneMore(table: map<Correspondent, Row>, key: MessageKey, addresses: set<string>, sent: bool, address: string)
    requires address !in addresses
    ensures var k, sofar := Correspondent(key.tenant, key.account, address), Added(table, key, addresses, sent);
      Added(table, key, addresses + {address}, sent) == sofar[k := More(RowAt(sofar, k), sent)]
  {
    hide Added;
    var k, sofar := Correspondent(key.tenant, key.account, address), Added(table, key, addresses, sent);
    var next := Added(table, key, addresses + {address}, sent);
    var updated := sofar[k := More(RowAt(sofar, k), sent)];
    forall other
      ensures other in next <==> other in updated
      ensures RowAt(next, other) == RowAt(updated, other)
    {
      AddedRow(table, key, addresses, sent, other);
      AddedRow(table, key, addresses + {address}, sent, other);
    }
    assert forall other :: other in next ==> next[other] == RowAt(next, other) && updated[other] == RowAt(updated, other);
  }

  class CorrespondentIndex {
    var accounts: map<string, string>
    var identities: map<string, Identity>
    var messages: map<MessageKey, Message>
    var table: map<Correspondent, Row>

    function Own(): Owners
      reads this
    {
      Owners(accounts, identities)
    }

    ghost function State(): Db
      reads this
    {
      Db(Own(), messages, table)
    }

    /** `add`: inserts or increases the row of every address the message contributes. */
    method Add(key: MessageKey, message: Message)
      modifies this`table
      ensures var sent := SentByOwner(Own(), key.tenant, message);
        table == Added(old(table), key, Contributed(message, sent), sent)
    {
      var sent := SentByOwner(Own(), key.tenant, message);
      var addresses := Contributed(message, sent);
      var left := addresses;
      AddedNone(table, key, sent);
      while left != {}
        invariant left <= addresses
        invariant table == Added(old(table), key, addresses - left, sent)
        decreases left
      {
        var address :| address in left;
        AddedOneMore(old(table), key, addresses - left, sent, address);
        assert addresses - left + {address} == addresses - (left - {address});
        var k := Correspondent(key.tenant, key.account, address);
        table := table[k := More(RowAt(table, k), sent)];
        left := left - {address};
      }
      assert addresses - {} == addresses;
    }

    /** `remove`: decreases the row of every address the message contributed, then deletes those that count nothing. */
    method Remove(key: MessageKey, message: Message)
      modifies this`table
      ensures var sent := SentByOwner(Own(), key.tenant, message);
        table == Subtracted(old(table), key, Contributed(message, sent), sent)
    {
      var sent := SentByOwner(Own(), key.tenant, message);
      var addresses := Contributed(message, sent);
      table := map k | k in table :: if Touched(k, key, addresses) then Less(table[k], sent) else table[k];
      table := map k | k in table && !(Touched(k, key, addresses) && table[k] == Row(0, 0)) :: table[k];
    }

    /** `rebuild`: empties the table and adds every message. */
    method Rebuild()
      modifies this`table
      ensures State() == Rebuilt(Own(), messages)
    {
      table := map[];
      var left := messages.Keys;
      ghost var done: map<MessageKey, Message> := map[];
      EmptyIsExact(Own());
      while left != {}
        invariant left <= messages.Keys
        invariant done == map key | key in messages && key !in left :: messages[key]
        invariant Exact(Db(Own(), done, table))
        decreases left
      {
        var key :| key in left;
        ghost var before := Db(Own(), done, table);
        AddKeepsExact(before, key, messages[key]);
        Add(key, messages[key]);
        done := done[key := messages[key]];
        left := left - {key};
        assert Db(Own(), done, table) == MessageAdded(before, key, messages[key]);
      }
      assert done == messages;
      RebuildIsExact(Own(), messages);
      ExactIsUnique(State(), Rebuilt(Own(), messages).table);
    }

    method OnPutMessage(key: MessageKey, message: Message)
      modifies this
      ensures State() == Happened(old(State()), PutMessage(key, message))
    {
      if key !in messages {
        messages := messages[key := message];
        Add(key, message);
      } else {
        var before := messages[key];
        messages := messages[key := message];
        if HeadersChanged(before, message) {
          Remove(key, before);
          Add(key, message);
          assert (old(messages) - {key})[key := message] == messages;
        }
      }
    }

    method OnDeleteMessage(key: MessageKey)
      modifies this
      ensures State() == Happened(old(State()), DeleteMessage(key))
    {
      if key in messages {
        var before := messages[key];
        messages := messages - {key};
        Remove(key, before);
      }
    }

    method OnPutIdentity(id: string, identity: Identity)
      modifies this
      ensures State() == Happened(old(State()), PutIdentity(id, identity))
    {
      identities := identities[id := identity];
      Rebuild();
    }

    method OnDeleteIdentity(id: string)
      modifies this
      ensures State() == Happened(old(State()), DeleteIdentity(id))
    {
      if id in identities {
        identities := identities - {id};
        Rebuild();
      }
    }

    /** No trigger watches inserts into the accounts table. */
    method OnInsertAccount(account: string, email: string)
      modifies this
      ensures State() == Happened(old(State()), InsertAccount(account, email))
    {
      if account !in accounts {
        accounts := accounts[account := email];
      }
    }

    method OnUpdateEmail(account: string, email: string)
      modifies this
      ensures State() == Happened(old(State()), UpdateEmail(account, email))
    {
      if account in accounts {
        accounts := accounts[account := email];
        Rebuild();
      }
    }

    /** The messages of the account go with it before the trigger recounts. */
    method OnDeleteAccount(account: string)
      modifies this
      ensures State() == Happened(old(State()), DeleteAccount(account))
    {
      if account in accounts {
        accounts := accounts - {account};
        messages := map key | key in messages && key.account != account :: messages[key];
        Rebuild();
      }
    }
  }

  lemma EmptyIsExact(owners: Owners)
    ensures Exact(Db(owners, map[], map[]))
  {
    RebuildIsExact(owners, map[]);
    assert Rebuilt(owners, map[]).table == map[];
  }

  // Runs.

  ghost function After(db: Db, events: seq<Event>): Db {
    if events == [] then db else Happened(After(db, events[..|events| - 1]), events[|events| - 1])
  }

  /** Every message sent from the address of a new account was already counted as sent. */
  ghost predicate AlreadyOwn(db: Db, email: string) {
    forall key :: key in db.messages && Sender(db.messages[key]) == Some(email) ==> IsOwn(db.owners, key.tenant, email)
  }

  ghost predicate Harmless(db: Db, event: Event) {
    event.InsertAccount? && event.account !in db.owners.accounts ==> AlreadyOwn(db, event.email)
  }

  ghost predicate HarmlessRun(db: Db, events: seq<Event>) {
    forall i :: 0 <= i < |events| ==> Harmless(After(db, events[..i]), events[i])
  }

  lemma HarmlessFront(db: Db, events: seq<Event>)
    requires HarmlessRun(db, events) && events != []
    ensures HarmlessRun(db, events[..|events| - 1]) && Harmless(After(db, events[..|events| - 1]), events[|events| - 1])
  {
    hide After, Harmless;
    var front := events[..|events| - 1];
    assert forall i :: 0 <= i < |front| ==> front[..i] == events[..i] && front[i] == events[i];
  }

  /** Owners that agree on every sender of an indexed message give the same counts. */
  lemma SameOwnersSameTally(a: Db, b: Db, k: Correspondent)
    requires a.messages == b.messages
    requires forall key :: key in a.messages ==> SentByOwner(a.owners, key.tenant, a.messages[key]) == SentByOwner(b.owners, key.tenant, a.messages[key])
    ensures Tally(a, k) == Tally(b, k)
  {
    hide SentByOwner, Contributed;
    assert CreditsOf(a, k, true) == CreditsOf(b, k, true);
    assert CreditsOf(a, k, false) == CreditsOf(b, k, false);
  }

  lemma OwnAfterInsert(owners: Owners, account: string, email: string, tenant: string, address: string)
    requires account !in owners.accounts
    ensures IsOwn(owners.(accounts := owners.accounts[account := email]), tenant, address) <==> address == email || IsOwn(owners, tenant, address)
  {
    hide Owns;
    var after := owners.(accounts := owners.accounts[account := email]);
    if address == email {
      assert account in after.accounts && after.accounts[account] == address;
    }
    if IsOwn(owners, tenant, address) && exists id :: id in owners.accounts && owners.accounts[id] == address {
      var id :| id in owners.accounts && owners.accounts[id] == address;
      assert id in after.accounts && after.accounts[id] == address;
    }
  }

  /** A new account, which fires no trigger, leaves the table exact if and only if every indexed message from its
      address was already own. */
  lemma InsertAccountExactIff(db: Db, account: string, email: string)
    requires Exact(db) && account !in db.owners.accounts && email != ""
    ensures Exact(Happened(db, InsertAccount(account, email))) <==> AlreadyOwn(db, email)
  {
    var after := Happened(db, InsertAccount(account, email));
    forall key | key in db.messages && Sender(db.messages[key]).Some?
      ensures IsOwn(after.owners, key.tenant, Sender(db.messages[key]).value) <==>
        Sender(db.messages[key]).value == email || IsOwn(db.owners, key.tenant, Sender(db.messages[key]).value)
    {
      OwnAfterInsert(db.owners, account, email, key.tenant, Sender(db.messages[key]).value);
    }
    if AlreadyOwn(db, email) {
      ReclassifiedKeepsExact(db, after);
    } else {
      var key :| key in db.messages && Sender(db.messages[key]) == Some(email) && !IsOwn(db.owners, key.tenant, email);
      ReclassifiedLosesCredit(db, after, key, email);
    }
  }

  lemma ReclassifiedKeepsExact(db: Db, after: Db)
    requires Exact(db) && after.messages == db.messages && after.table == db.table
    requires forall key :: key in db.messages ==>
      SentByOwner(after.owners, key.tenant, db.messages[key]) == SentByOwner(db.owners, key.tenant, db.messages[key])
    ensures Exact(after)
  {
    hide Tally, SentByOwner;
    forall k
      ensures RowAt(after.table, k) == Tally(after, k)
    {
      SameOwnersSameTally(db, after, k);
      assert RowAt(db.table, k) == Tally(db, k);
    }
  }

  /** The sender was counted as received from; after the insert a recount would not count it. */
  lemma ReclassifiedLosesCredit(db: Db, after: Db, key: MessageKey, email: string)
    requires Exact(db) && after.messages == db.messages && after.table == db.table
    requires key in db.messages && Sender(db.messages[key]) == Some(email) && email != ""
    requires !IsOwn(db.owners, key.tenant, email) && IsOwn(after.owners, key.tenant, email)
    requires forall other :: other in db.messages && SentByOwner(db.owners, other.tenant, db.messages[other]) ==>
      SentByOwner(after.owners, other.tenant, db.messages[other])
    ensures !Exact(after)
  {
    hide IsOwn, WildcardCovers;
    var k := Correspondent(key.tenant, key.account, email);
    assert Credits(db, key, k, false) && !Credits(after, key, k, false);
    assert CreditsOf(after, k, false) <= CreditsOf(db, k, false) - {key};
    SubsetSize(CreditsOf(after, k, false), CreditsOf(db, k, false) - {key});
    assert key in CreditsOf(db, k, false);
    assert Tally(after, k).received < Tally(db, k).received;
    assert RowAt(db.table, k) == Tally(db, k);
    assert RowAt(after.table, k) != Tally(after, k);
  }

  /** One statement keeps the table exact. */
  lemma StepExact(db: Db, event: Event)
    requires Exact(db) && Harmless(db, event)
    ensures Exact(Happened(db, event))
  {
    hide Exact, MessageAdded, MessageRemoved, Rebuilt, AlreadyOwn;
    match event
    case PutMessage(key, message) => PutKeepsExact(db, key, message);
    case DeleteMessage(key) => if key in db.messages { RemoveKeepsExact(db, key); }
    case PutIdentity(id, identity) => RebuildIsExact(db.owners.(identities := db.owners.identities[id := identity]), db.messages);
    case DeleteIdentity(id) => RebuildIsExact(db.owners.(identities := db.owners.identities - {id}), db.messages);
    case InsertAccount(account, email) => if account !in db.owners.accounts { InsertKeepsExact(db, account, email); }
    case UpdateEmail(account, email) => RebuildIsExact(db.owners.(accounts := db.owners.accounts[account := email]), db.messages);
    case DeleteAccount(account) =>
      RebuildIsExact(db.owners.(accounts := db.owners.accounts - {account}), WithoutAccount(db.messages, account));
  }

  lemma InsertKeepsExact(db: Db, account: string, email: string)
    requires Exact(db) && account !in db.owners.accounts && AlreadyOwn(db, email)
    ensures Exact(Happened(db, InsertAccount(account, email)))
  {
    var after := Happened(db, InsertAccount(account, email));
    forall key | key in db.messages
      ensures SentByOwner(after.owners, key.tenant, db.messages[key]) == SentByOwner(db.owners, key.tenant, db.messages[key])
    {
      if Sender(db.messages[key]).Some? {
        OwnAfterInsert(db.owners, account, email, key.tenant, Sender(db.messages[key]).value);
      }
    }
    ReclassifiedKeepsExact(db, after);
  }

  lemma PutKeepsExact(db: Db, key: MessageKey, message: Message)
    requires Exact(db)
    ensures Exact(Happened(db, PutMessage(key, message)))
  {
    hide Exact, Added, Subtracted, SentByOwner, Contributed;
    if key !in db.messages {
      AddKeepsExact(db, key, message);
    } else if HeadersChanged(db.messages[key], message) {
      RemoveKeepsExact(db, key);
      AddKeepsExact(MessageRemoved(db, key), key, message);
    } else {
      SameHeadersKeepExact(db, key, message);
    }
  }

  /** An update the trigger's condition skips does not change any count. */
  lemma SameHeadersKeepExact(db: Db, key: MessageKey, message: Message)
    requires Exact(db) && key in db.messages && !HeadersChanged(db.messages[key], message)
    ensures Exact(db.(messages := db.messages[key := message]))
  {
    hide Tally, IsOwn;
    var after := db.(messages := db.messages[key := message]);
    forall k
      ensures RowAt(after.table, k) == Tally(after, k)
    {
      SameHeadersSameTally(db, key, message, k);
      assert RowAt(db.table, k) == Tally(db, k);
    }
  }

  lemma SameHeadersSameTally(db: Db, key: MessageKey, message: Message, k: Correspondent)
    requires key in db.messages && !HeadersChanged(db.messages[key], message)
    ensures Tally(db.(messages := db.messages[key := message]), k) == Tally(db, k)
  {
    hide IsOwn;
    var after := db.(messages := db.messages[key := message]);
    assert Recipients(message) == Recipients(db.messages[key]);
    assert CreditsOf(after, k, true) == CreditsOf(db, k, true);
    assert CreditsOf(after, k, false) == CreditsOf(db, k, false);
  }

  /** After any run the table equals a count from scratch, as long as no account is added whose address already
      sent an indexed message without being own. */
  lemma {:induction false} RunExact(db: Db, events: seq<Event>)
    requires Exact(db) && HarmlessRun(db, events)
    ensures Exact(After(db, events))
    ensures After(db, events).table == Rebuilt(After(db, events).owners, After(db, events).messages).table
  {
    hide Exact, Harmless, HarmlessRun, Happened;
    if events != [] {
      HarmlessFront(db, events);
      RunExact(db, events[..|events| - 1]);
      StepExact(After(db, events[..|events| - 1]), events[|events| - 1]);
    }
    var after := After(db, events);
    RebuildIsExact(after.owners, after.messages);
    var rebuilt := Rebuilt(after.owners, after.messages);
    assert after.(table := rebuilt.table) == rebuilt;
    ExactIsUnique(after, rebuilt.table);
  }

  predicate Recounts(db: Db, event: Event) {
    match event
    case PutIdentity(_, _) => true
    case DeleteIdentity(id) => id in db.owners.identities
    case UpdateEmail(account, _) => account in db.owners.accounts
    case DeleteAccount(account) => account in db.owners.accounts
    case _ => false
  }

  /** Any change of identities, and any change or removal of an account, repairs a table that drifted. */
  lemma RecountRepairs(db: Db, event: Event)
    requires Recounts(db, event)
    ensures Exact(Happened(db, event))
  {
    hide Exact, Rebuilt;
    match event
    case PutIdentity(id, identity) => RebuildIsExact(db.owners.(identities := db.owners.identities[id := identity]), db.messages);
    case DeleteIdentity(id) => RebuildIsExact(db.owners.(identities := db.owners.identities - {id}), db.messages);
    case UpdateEmail(account, email) => RebuildIsExact(db.owners.(accounts := db.owners.accounts[account := email]), db.messages);
    case DeleteAccount(account) =>
      RebuildIsExact(db.owners.(accounts := db.owners.accounts - {account}), WithoutAccount(db.messages, account));
  }

  /** A run that drifts: a message from an address arrives, then that address becomes an account. */
  lemma AccountInsertDrifts()
    ensures var key, message := MessageKey("t", "a", "m"), Message([Mailbox("", Some("me@b.org"))], [], [], "", "");
      var start := Db(Owners(map["a" := "you@b.org"], map[]), map[], map[]);
      Exact(start) && !Exact(After(start, [PutMessage(key, message), InsertAccount("b", "me@b.org")]))
  {
    var key, message := MessageKey("t", "a", "m"), Message([Mailbox("", Some("me@b.org"))], [], [], "", "");
    var start := Db(Owners(map["a" := "you@b.org"], map[]), map[], map[]);
    var put, insert := PutMessage(key, message), InsertAccount("b", "me@b.org");
    EmptyIsExact(start.owners);
    assert [put, insert][..1] == [put] && [put][..0] == [];
    assert After(start, [put]) == MessageAdded(start, key, message);
    var db := After(start, [put]);
    AddKeepsExact(start, key, message);
    assert !AlreadyOwn(db, "me@b.org") by {
      assert key in db.messages && Sender(db.messages[key]) == Some("me@b.org");
      assert !IsOwn(db.owners, "t", "me@b.org");
    }
    InsertAccountExactIff(db, "b", "me@b.org");
  }

  // Wildcard identities.

  /** The SQL test accepts exactly the addresses on the domain whose local part has two characters or more. */
  lemma WildcardCoversIff(domain: string, address: string)
    ensures WildcardCovers("*@" + domain, address) <==>
      exists local: string :: address == local + "@" + domain && '@' !in local && |local| >= 2
  {
    var wildcard := "*@" + domain;
    assert wildcard[..2] == "*@" && wildcard[1..] == "@" + domain;
    if WildcardCovers(wildcard, address) {
      var cut := |address| - |wildcard| + 1;
      assert address == address[..cut] + address[cut..];
      assert address == address[..cut] + "@" + domain;
    }
    if exists local: string :: address == local + "@" + domain && '@' !in local && |local| >= 2 {
      var local: string :| address == local + "@" + domain && '@' !in local && |local| >= 2;
      assert |address| - |wildcard| + 1 == |local|;
      assert address[|local|..] == "@" + domain && address[..|local|] == local;
    }
  }

  /** So an address with a one-letter local part is not covered, although it is on the domain. */
  lemma WildcardMissesOneLetter()
    ensures !WildcardCovers("*@b.org", "x@b.org") && WildcardCovers("*@b.org", "xy@b.org")
  {
    assert "*@b.org"[..2] == "*@" && "xy@b.org"[2..] == "*@b.org"[1..] && "xy@b.org"[..2] == "xy";
  }
}
