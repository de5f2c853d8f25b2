/** What one approved action does to the labels of its message, label by label. */
module GmailMoves {
  import opened PriorityQueue
  import opened GmailActions

  ghost predicate HasLabel(mails: map<nat, Mail>, id: nat, name: string) {
    id in mails && name in mails[id].labels
  }

  /** The message is still there and has not changed since the item was made. */
  ghost predicate Current(mails: map<nat, Mail>, item: Item) {
    && item.message.id in mails
    && (item.message.modseq.None? || mails[item.message.id].historyId == item.message.modseq)
  }

  /** A message that changed since it was listed, or is gone, is reported as failed and left alone; and no action touches
      another message. */
  lemma OnlyCurrentMessages(mails: map<nat, Mail>, item: Item, fate: Fate)
    ensures !Current(mails, item) ==> AppliedOne(mails, item, fate).0 == mails && AppliedOne(mails, item, fate).1.status == Failed
    ensures AppliedOne(mails, item, fate).0.Keys == mails.Keys
    ensures forall id :: id in mails && id != item.message.id ==> AppliedOne(mails, item, fate).0[id] == mails[id]
  {
  }

  /** Archiving takes a message out of the inbox and out of the mailbox it was seen in, and leaves all other labels. */
  lemma ArchivedLabels(mails: map<nat, Mail>, item: Item, fate: Fate, name: string)
    requires Current(mails, item) && !fate.Refused? && item.action == Move("__archive__")
    ensures HasLabel(AppliedOne(mails, item, fate).0, item.message.id, name) <==>
      HasLabel(mails, item.message.id, name) && name != "INBOX" && (name != item.message.mailbox || item.message.mailbox == "__archive__")
  {
  }

  /** Reporting spam adds the spam label, takes the message out of the inbox, and keeps the labels of the user. */
  lemma SpamLabels(mails: map<nat, Mail>, item: Item, fate: Fate, name: string)
    requires Current(mails, item) && !fate.Refused? && item.action == Move("SPAM")
    ensures HasLabel(AppliedOne(mails, item, fate).0, item.message.id, name) <==>
      name == "SPAM" || (HasLabel(mails, item.message.id, name) && name != "INBOX")
  {
  }

  /** Moving to a label puts it on and takes off the one of the mailbox the message was seen in; from the archive there is
      nothing to take off. */
  lemma MovedLabels(mails: map<nat, Mail>, item: Item, fate: Fate, name: string)
    requires Current(mails, item) && !fate.Refused? && item.action.Move?
    requires item.action.destination != "__archive__" && item.action.destination != "SPAM"
    ensures HasLabel(AppliedOne(mails, item, fate).0, item.message.id, name) <==>
      name == item.action.destination
      || (HasLabel(mails, item.message.id, name) && (name != item.message.mailbox || item.message.mailbox == "__archive__"))
  {
  }

  /** Reading and flagging change one label. */
  lemma MarkedLabels(mails: map<nat, Mail>, item: Item, fate: Fate, name: string)
    requires Current(mails, item) && !fate.Refused? && !item.action.Move?
    ensures HasLabel(AppliedOne(mails, item, fate).0, item.message.id, name) <==>
      match item.action
      case MarkRead => HasLabel(mails, item.message.id, name) && name != "UNREAD"
      case MarkUnread => HasLabel(mails, item.message.id, name) || name == "UNREAD"
      case Flag => HasLabel(mails, item.message.id, name) || name == "STARRED"
      case Unflag => HasLabel(mails, item.message.id, name) && name != "STARRED"
      case _ => HasLabel(mails, item.message.id, name)
  {
  }

  /** What is reported as done was done, and what is reported as failed was not, unless the answer was lost. */
  lemma ReportedAsDone(mails: map<nat, Mail>, item: Item, fate: Fate)
    ensures AppliedOne(mails, item, fate).1.status == Success <==>
      Current(mails, item) && (fate.Answered? || (item.action.Leave? && !fate.Refused?))
    ensures AppliedOne(mails, item, fate).1.status == Failed && !fate.Lost? ==> AppliedOne(mails, item, fate).0 == mails
  {
  }

  // A whole proposal.

  /** Messages that no item names stay as they are. */
  lemma {:induction false} OthersKeepLabels(mails: map<nat, Mail>, items: seq<Item>, fates: seq<Fate>, id: nat)
    requires |fates| == |items| && forall i :: 0 <= i < |items| ==> items[i].message.id != id
    ensures AppliedAll(mails, items, fates).0.Keys == mails.Keys
    ensures id in mails ==> AppliedAll(mails, items, fates).0[id] == mails[id]
  {
    if items != [] {
      hide AppliedOne;
      var n := |items| - 1;
      OthersKeepLabels(mails, items[..n], fates[..n], id);
      OnlyCurrentMessages(AppliedAll(mails, items[..n], fates[..n]).0, items[n], fates[n]);
    }
  }
}
