/** What the counts of a correspondent mean, in terms of the fields of the messages and of the owner's addresses. */
module CorrespondentFields {
  import opened PriorityQueue
  import opened Correspondents
  import opened CorrespondentIndex

  /** The address belongs to an account, is an identity of the tenant, or is on the domain of a wildcard identity of the
      tenant, with two or more characters before the `@`. */
  ghost predicate OwnAddress(owners: Owners, tenant: string, address: string) {
    || (exists id :: id in owners.accounts && owners.accounts[id] == address)
    || (exists id :: id in owners.identities && owners.identities[id].tenant == tenant && owners.identities[id].address == address)
    || (exists id, domain: string, local: string :: OnDomain(owners, tenant, address, id, domain, local))
  }

  ghost predicate OnDomain(owners: Owners, tenant: string, address: string, id: string, domain: string, local: string) {
    && id in owners.identities && owners.identities[id].tenant == tenant && owners.identities[id].address == "*@" + domain
    && address == local + "@" + domain && '@' !in local && |local| >= 2
  }

  ghost predicate FirstSender(message: Message, address: string) {
    message.from != [] && message.from[0].address == Some(address)
  }

  ghost predicate ListedIn(mailboxes: seq<Mailbox>, address: string) {
    exists i :: 0 <= i < |mailboxes| && mailboxes[i].address == Some(address)
  }

  /** The message counts as sent to the address: an own address sent it, and it names the address as To or Cc. */
  ghost predicate SentTo(owners: Owners, key: MessageKey, message: Message, k: Correspondent) {
    && key.tenant == k.tenant && key.account == k.account && k.address != ""
    && (exists sender :: FirstSender(message, sender) && OwnAddress(owners, key.tenant, sender))
    && (ListedIn(message.to, k.address) || ListedIn(message.cc, k.address))
  }

  /** The message counts as received from the address: it is the first sender, and not an own address. */
  ghost predicate ReceivedFrom(owners: Owners, key: MessageKey, message: Message, k: Correspondent) {
    && key.tenant == k.tenant && key.account == k.account && k.address != ""
    && FirstSender(message, k.address) && !OwnAddress(owners, key.tenant, k.address)
  }

  ghost function SentKeys(db: Db, k: Correspondent): set<MessageKey> {
    set key | key in db.messages && SentTo(db.owners, key, db.messages[key], k)
  }

  ghost function ReceivedKeys(db: Db, k: Correspondent): set<MessageKey> {
    set key | key in db.messages && ReceivedFrom(db.owners, key, db.messages[key], k)
  }

  lemma OwnByFields(owners: Owners, tenant: string, address: string)
    ensures IsOwn(owners, tenant, address) <==> OwnAddress(owners, tenant, address)
  {
    hide WildcardCovers;
    forall id | id in owners.identities && owners.identities[id].tenant == tenant
      ensures WildcardCovers(owners.identities[id].address, address) <==> exists domain: string, local: string :: OnDomain(owners, tenant, address, id, domain, local)
    {
      CoveredByDomain(owners, tenant, address, id);
    }
  }

  lemma CoveredByDomain(owners: Owners, tenant: string, address: string, id: string)
    requires id in owners.identities && owners.identities[id].tenant == tenant
    ensures WildcardCovers(owners.identities[id].address, address) <==> exists domain: string, local: string :: OnDomain(owners, tenant, address, id, domain, local)
  {
    var wildcard := owners.identities[id].address;
    if WildcardCovers(wildcard, address) {
      var domain := wildcard[2..];
      assert wildcard == "*@" + domain;
      WildcardCoversIff(domain, address);
      var local: string :| address == local + "@" + domain && '@' !in local && |local| >= 2;
      assert OnDomain(owners, tenant, address, id, domain, local);
    }
    if domain: string, local: string :| OnDomain(owners, tenant, address, id, domain, local) {
      WildcardCoversIff(domain, address);
    }
  }

  lemma RecipientByFields(message: Message, address: string)
    ensures address in Recipients(message) <==> address != "" && (ListedIn(message.to, address) || ListedIn(message.cc, address))
  {
    if address in Recipients(message) {
      var mailbox :| mailbox in message.to + message.cc && mailbox.address == Some(address);
      if mailbox in message.to {
        var i :| 0 <= i < |message.to| && message.to[i] == mailbox;
      } else {
        var i :| 0 <= i < |message.cc| && message.cc[i] == mailbox;
      }
    }
    if ListedIn(message.to, address) {
      var i :| 0 <= i < |message.to| && message.to[i].address == Some(address);
      assert message.to[i] in message.to + message.cc;
    }
    if ListedIn(message.cc, address) {
      var i :| 0 <= i < |message.cc| && message.cc[i].address == Some(address);
      assert message.cc[i] in message.to + message.cc;
    }
  }

  lemma CreditsByFields(db: Db, key: MessageKey, k: Correspondent)
    requires key in db.messages
    ensures Credits(db, key, k, true) <==> SentTo(db.owners, key, db.messages[key], k)
    ensures Credits(db, key, k, false) <==> ReceivedFrom(db.owners, key, db.messages[key], k)
  {
    hide IsOwn, OwnAddress, Recipients, ListedIn;
    var message := db.messages[key];
    RecipientByFields(message, k.address);
    if Sender(message).Some? { OwnByFields(db.owners, key.tenant, Sender(message).value); }
  }

  /** In an exact table the counts of a correspondent are the numbers of messages of that account that an own address sent to
      it, as To or Cc, and that it sent itself without being an own address. */
  lemma CountsByFields(db: Db, k: Correspondent)
    requires Exact(db)
    ensures RowAt(db.table, k) == Row(|SentKeys(db, k)|, |ReceivedKeys(db, k)|)
  {
    hide Credits, SentTo, ReceivedFrom;
    assert RowAt(db.table, k) == Tally(db, k);
    forall key | key in db.messages
      ensures Credits(db, key, k, true) <==> SentTo(db.owners, key, db.messages[key], k)
      ensures Credits(db, key, k, false) <==> ReceivedFrom(db.owners, key, db.messages[key], k)
    {
      CreditsByFields(db, key, k);
    }
    assert CreditsOf(db, k, true) == SentKeys(db, k) && CreditsOf(db, k, false) == ReceivedKeys(db, k);
  }
}
