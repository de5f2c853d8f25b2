/** The correspondents table: counts per address that triggers keep in step with the indexed messages. */
module Correspondents {
  import opened PriorityQueue

  /** Addresses are in lower case, as the queries compare them. */
  datatype Mailbox = Mailbox(name: string, address: Option<string>)

  datatype Message = Message(from: seq<Mailbox>, to: seq<Mailbox>, cc: seq<Mailbox>, receivedAt: string, body: string)

  datatype MessageKey = MessageKey(tenant: string, account: string, id: string)

  datatype Identity = Identity(tenant: string, address: string)

  /** The own addresses: accounts by id with their email, and identities by id. */
  datatype Owners = Owners(accounts: map<string, string>, identities: map<string, Identity>)

  datatype Correspondent = Correspondent(tenant: string, account: string, address: string)

  datatype Row = Row(sent: int, received: int)

  datatype Db = Db(owners: Owners, messages: map<MessageKey, Message>, table: map<Correspondent, Row>)

  // Which addresses a message counts for.

  /** The SQL test whether the wildcard identity `*@domain` covers an address. */
  predicate WildcardCovers(wildcard: string, address: string) {
    && |wildcard| >= 2 && wildcard[..2] == "*@"
    && |address| > |wildcard|
    && var local := |address| - |wildcard| + 1;
      address[local..] == wildcard[1..] && '@' !in address[..local]
  }

  predicate Owns(identity: Identity, tenant: string, address: string) {
    identity.tenant == tenant && (identity.address == address || WildcardCovers(identity.address, address))
  }

  predicate IsOwn(owners: Owners, tenant: string, address: string) {
    || (exists id :: id in owners.accounts && owners.accounts[id] == address)
    || (exists id :: id in owners.identities && Owns(owners.identities[id], tenant, address))
  }

  function Sender(message: Message): Option<string> {
    if message.from == [] then None else message.from[0].address
  }

  predicate SentByOwner(owners: Owners, tenant: string, message: Message) {
    Sender(message).Some? && IsOwn(owners, tenant, Sender(message).value)
  }

  function Recipients(message: Message): set<string> {
    set mailbox | mailbox in message.to + message.cc && mailbox.address.Some? && mailbox.address.value != "" :: mailbox.address.value
  }

  /** The recipients when an own address sent the message, otherwise the sender. */
  function Contributed(message: Message, sent: bool): set<string> {
    if sent then Recipients(message)
    else if Sender(message).Some? && Sender(message).value != "" then {Sender(message).value}
    else {}
  }

  // One row.

  function RowAt(table: map<Correspondent, Row>, k: Correspondent): Row {
    if k in table then table[k] else Row(0, 0)
  }

  function More(row: Row, sent: bool): Row {
    if sent then Row(row.sent + 1, row.received) else Row(row.sent, row.received + 1)
  }

  function AtLeastZero(n: int): nat {
    if n < 0 then 0 else n
  }

  function Less(row: Row, sent: bool): Row {
    if sent then Row(AtLeastZero(row.sent - 1), AtLeastZero(row.received)) else Row(AtLeastZero(row.sent), AtLeastZero(row.received - 1))
  }

  predicate Touched(k: Correspondent, key: MessageKey, addresses: set<string>) {
    k.tenant == key.tenant && k.account == key.account && k.address in addresses
  }

  /** The rows after `add`. */
  function Added(table: map<Correspondent, Row>, key: MessageKey, addresses: set<string>, sent: bool): map<Correspondent, Row> {
    map k | k in table.Keys + (set address | address in addresses :: Correspondent(key.tenant, key.account, address)) ::
      if Touched(k, key, addresses) then More(RowAt(table, k), sent) else RowAt(table, k)
  }

  predicate Survives(row: Row, touched: bool, sent: bool) {
    touched ==> Less(row, sent) != Row(0, 0)
  }

  /** The rows after `remove`. */
  function Subtracted(table: map<Correspondent, Row>, key: MessageKey, addresses: set<string>, sent: bool): map<Correspondent, Row> {
    map k | k in table && Survives(table[k], Touched(k, key, addresses), sent) ::
      if Touched(k, key, addresses) then Less(table[k], sent) else table[k]
  }

  // The recount.

  ghost predicate Credits(db: Db, key: MessageKey, k: Correspondent, sent: bool) {
    && key in db.messages && key.tenant == k.tenant && key.account == k.account
    && SentByOwner(db.owners, key.tenant, db.messages[key]) == sent && k.address in Contributed(db.messages[key], sent)
  }

  ghost function CreditsOf(db: Db, k: Correspondent, sent: bool): set<MessageKey> {
    set key | key in db.messages && Credits(db, key, k, sent)
  }

  /** What a count from scratch gives for one correspondent. */
  ghost function Tally(db: Db, k: Correspondent): Row {
    Row(|CreditsOf(db, k, true)|, |CreditsOf(db, k, false)|)
  }

  /** The table holds exactly the correspondents that some message counts for, with their counts. */
  ghost predicate Exact(db: Db) {
    && (forall k {:trigger Tally(db, k)} :: RowAt(db.table, k) == Tally(db, k))
    && (forall k :: k in db.table ==> db.table[k] != Row(0, 0))
  }

  /** Some message touches this correspondent. */
  function Mentioned(db: Db): set<Correspondent> {
    set key, address | key in db.messages && address in Contributed(db.messages[key], SentByOwner(db.owners, key.tenant, db.messages[key])) ::
      Correspondent(key.tenant, key.account, address)
  }

  ghost function Recounted(db: Db): map<Correspondent, Row> {
    map k | k in Mentioned(db) :: Tally(db, k)
  }

  predicate HeadersChanged(before: Message, after: Message) {
    before.from != after.from || before.to != after.to || before.cc != after.cc || before.receivedAt != after.receivedAt
  }

  // The statements that fire triggers.

  datatype Event =
    | PutMessage(key: MessageKey, message: Message)
    | DeleteMessage(key: MessageKey)
    | PutIdentity(id: string, identity: Identity)
    | DeleteIdentity(id: string)
    | InsertAccount(account: string, email: string)
    | UpdateEmail(account: string, email: string)
    | DeleteAccount(account: string)

  function MessageAdded(db: Db, key: MessageKey, message: Message): Db {
    var sent := SentByOwner(db.owners, key.tenant, message);
    Db(db.owners, db.messages[key := message], Added(db.table, key, Contributed(message, sent), sent))
  }

  function MessageRemoved(db: Db, key: MessageKey): Db
    requires key in db.messages
  {
    var message := db.messages[key];
    var sent := SentByOwner(db.owners, key.tenant, message);
    Db(db.owners, db.messages - {key}, Subtracted(db.table, key, Contributed(message, sent), sent))
  }

  ghost function Rebuilt(owners: Owners, messages: map<MessageKey, Message>): Db {
    Db(owners, messages, Recounted(Db(owners, messages, map[])))
  }

  function WithoutAccount(messages: map<MessageKey, Message>, account: string): map<MessageKey, Message> {
    map key | key in messages && key.account != account :: messages[key]
  }

  /** The state after one statement and its triggers. */
  ghost function Happened(db: Db, event: Event): Db {
    match event
    case PutMessage(key, message) =>
      if key !in db.messages then MessageAdded(db, key, message)
      else if HeadersChanged(db.messages[key], message) then MessageAdded(MessageRemoved(db, key), key, message)
      else db.(messages := db.messages[key := message])
    case DeleteMessage(key) => if key in db.messages then MessageRemoved(db, key) else db
    case PutIdentity(id, identity) => Rebuilt(db.owners.(identities := db.owners.identities[id := identity]), db.messages)
    case DeleteIdentity(id) =>
      if id in db.owners.identities then Rebuilt(db.owners.(identities := db.owners.identities - {id}), db.messages) else db
    case InsertAccount(account, email) =>
      if account in db.owners.accounts then db else db.(owners := db.owners.(accounts := db.owners.accounts[account := email]))
    case UpdateEmail(account, email) =>
      if account in db.owners.accounts then Rebuilt(db.owners.(accounts := db.owners.accounts[account := email]), db.messages) else db
    case DeleteAccount(account) =>
      if account in db.owners.accounts then
        Rebuilt(db.owners.(accounts := db.owners.accounts - {account}), WithoutAccount(db.messages, account))
      else db
  }

  // How one more or one less message changes the recount.

  lemma TallyAdds(db: Db, key: MessageKey, message: Message, table: map<Correspondent, Row>, k: Correspondent)
    requires key !in db.messages
    ensures var after := Db(db.owners, db.messages[key := message], table);
      var sent := SentByOwner(db.owners, key.tenant, message);
      Tally(after, k) == if Touched(k, key, Contributed(message, sent)) then More(Tally(db, k), sent) else Tally(db, k)
  {
    hide SentByOwner, Contributed, CreditsOf;
    CreditsAdd(db, key, message, table, k, true);
    CreditsAdd(db, key, message, table, k, false);
    assert key !in CreditsOf(db, k, true) && key !in CreditsOf(db, k, false) by { CreditsAreMessages(db, k); }
  }

  lemma CreditsAreMessages(db: Db, k: Correspondent)
    ensures CreditsOf(db, k, true) <= db.messages.Keys && CreditsOf(db, k, false) <= db.messages.Keys
  {
  }

  lemma CreditsAdd(db: Db, key: MessageKey, message: Message, table: map<Correspondent, Row>, k: Correspondent, kind: bool)
    requires key !in db.messages
    ensures var after := Db(db.owners, db.messages[key := message], table);
      var sent := SentByOwner(db.owners, key.tenant, message);
      CreditsOf(after, k, kind) == CreditsOf(db, k, kind) + if kind == sent && Touched(k, key, Contributed(message, sent)) then {key} else {}
  {
    hide SentByOwner, Contributed;
    var after := Db(db.owners, db.messages[key := message], table);
    forall other
      ensures other != key ==> (Credits(after, other, k, kind) <==> Credits(db, other, k, kind))
    {
    }
  }

  lemma TallyIgnoresTable(db: Db, table: map<Correspondent, Row>, k: Correspondent)
    ensures Tally(db.(table := table), k) == Tally(db, k)
  {
    hide SentByOwner, Contributed;
    assert CreditsOf(db.(table := table), k, true) == CreditsOf(db, k, true);
    assert CreditsOf(db.(table := table), k, false) == CreditsOf(db, k, false);
  }

  lemma AddedRow(table: map<Correspondent, Row>, key: MessageKey, addresses: set<string>, sent: bool, k: Correspondent)
    ensures RowAt(Added(table, key, addresses, sent), k) == if Touched(k, key, addresses) then More(RowAt(table, k), sent) else RowAt(table, k)
    ensures k in Added(table, key, addresses, sent) <==> k in table || Touched(k, key, addresses)
  {
    if Touched(k, key, addresses) {
      assert k == Correspondent(key.tenant, key.account, k.address);
    }
  }

  /** An insert keeps the table exact. */
  lemma AddKeepsExact(db: Db, key: MessageKey, message: Message)
    requires Exact(db) && key !in db.messages
    ensures Exact(MessageAdded(db, key, message))
  {
    hide SentByOwner, Contributed, Added, Tally;
    var after := MessageAdded(db, key, message);
    var sent := SentByOwner(db.owners, key.tenant, message);
    var addresses := Contributed(message, sent);
    forall k
      ensures RowAt(after.table, k) == Tally(after, k)
      ensures k in after.table ==> after.table[k] != Row(0, 0)
    {
      TallyAdds(db, key, message, after.table, k);
      AddedRow(db.table, key, addresses, sent, k);
      assert RowAt(db.table, k) == Tally(db, k);
      TallyNatural(db, k);
    }
  }

  lemma TallyNatural(db: Db, k: Correspondent)
    ensures Tally(db, k).sent >= 0 && Tally(db, k).received >= 0
  {
  }

  lemma SubtractedRow(table: map<Correspondent, Row>, key: MessageKey, addresses: set<string>, sent: bool, k: Correspondent)
    requires RowAt(table, k).sent >= 0 && RowAt(table, k).received >= 0
    ensures RowAt(Subtracted(table, key, addresses, sent), k) == if Touched(k, key, addresses) then Less(RowAt(table, k), sent) else RowAt(table, k)
    ensures k in Subtracted(table, key, addresses, sent) ==>
      k in table && (table[k] != Row(0, 0) ==> RowAt(Subtracted(table, key, addresses, sent), k) != Row(0, 0))
  {
  }

  /** When the table is exact, every row a removal touches counts the message, so `max(0, ...)` never clips. */
  lemma RemovalNeverClips(db: Db, key: MessageKey, k: Correspondent)
    requires Exact(db) && key in db.messages
    ensures var sent := SentByOwner(db.owners, key.tenant, db.messages[key]);
      Touched(k, key, Contributed(db.messages[key], sent)) ==>
        k in db.table && db.table[k] == More(Less(db.table[k], sent), sent)
  {
    hide SentByOwner, Contributed;
    var message := db.messages[key];
    var sent := SentByOwner(db.owners, key.tenant, message);
    assert RowAt(db.table, k) == Tally(db, k);
    if Touched(k, key, Contributed(message, sent)) {
      assert key in CreditsOf(db, k, sent);
      assert CreditsOf(db, k, sent) != {};
    }
  }

  /** A delete keeps the table exact. */
  lemma RemoveKeepsExact(db: Db, key: MessageKey)
    requires Exact(db) && key in db.messages
    ensures Exact(MessageRemoved(db, key))
  {
    hide SentByOwner, Contributed, Subtracted, Tally;
    var after := MessageRemoved(db, key);
    var message := db.messages[key];
    var sent := SentByOwner(db.owners, key.tenant, message);
    var addresses := Contributed(message, sent);
    assert after.messages[key := message] == db.messages;
    forall k
      ensures RowAt(after.table, k) == Tally(after, k)
      ensures k in after.table ==> after.table[k] != Row(0, 0)
    {
      assert Db(after.owners, after.messages[key := message], db.table) == db;
      TallyAdds(after, key, message, db.table, k);
      assert RowAt(db.table, k) == Tally(db, k);
      TallyNatural(db, k);
      TallyNatural(after, k);
      SubtractedRow(db.table, key, addresses, sent, k);
    }
  }

  /** A rebuild gives the exact table, whatever the table held before. */
  lemma RebuildIsExact(owners: Owners, messages: map<MessageKey, Message>)
    ensures Exact(Rebuilt(owners, messages))
  {
    hide SentByOwner, Contributed;
    var empty := Db(owners, messages, map[]);
    var after := Rebuilt(owners, messages);
    forall k
      ensures RowAt(after.table, k) == Tally(after, k)
      ensures k in after.table ==> after.table[k] != Row(0, 0)
    {
      TallyIgnoresTable(empty, after.table, k);
      if k in Mentioned(empty) {
        var key, address :| key in messages && address in Contributed(messages[key], SentByOwner(owners, key.tenant, messages[key]))
          && k == Correspondent(key.tenant, key.account, address);
        assert key in CreditsOf(empty, k, SentByOwner(owners, key.tenant, messages[key]));
        assert |CreditsOf(empty, k, SentByOwner(owners, key.tenant, messages[key]))| > 0;
      } else {
        assert CreditsOf(empty, k, true) == {} by { NotMentioned(empty, k, true); }
        assert CreditsOf(empty, k, false) == {} by { NotMentioned(empty, k, false); }
      }
    }
  }

  lemma CreditIsMentioned(db: Db, key: MessageKey, k: Correspondent, sent: bool)
    requires Credits(db, key, k, sent)
    ensures k in Mentioned(db)
  {
    assert k == Correspondent(key.tenant, key.account, k.address);
  }

  lemma NotMentioned(db: Db, k: Correspondent, sent: bool)
    requires k !in Mentioned(db)
    ensures CreditsOf(db, k, sent) == {}
  {
    hide SentByOwner, Contributed, Mentioned;
    forall key
      ensures Credits(db, key, k, sent) ==> k in Mentioned(db)
    {
      if Credits(db, key, k, sent) { CreditIsMentioned(db, key, k, sent); }
    }
  }

  /** An exact table is determined by the accounts, identities and messages. */
  lemma ExactIsUnique(db: Db, table: map<Correspondent, Row>)
    requires Exact(db) && Exact(db.(table := table))
    ensures db.table == table
  {
    hide Tally;
    forall k
      ensures k in db.table <==> k in table
      ensures RowAt(db.table, k) == RowAt(table, k)
    {
      TallyIgnoresTable(db, table, k);
      assert RowAt(db.table, k) == Tally(db, k) && RowAt(table, k) == Tally(db.(table := table), k);
    }
    assert forall k :: k in table ==> table[k] == RowAt(table, k) && db.table[k] == RowAt(db.table, k);
  }
}
