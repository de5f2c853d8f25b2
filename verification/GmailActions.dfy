/** Applying an approved proposal to a Gmail mailbox and undoing the batch, as changes of label sets. */
module GmailActions {
  import opened PriorityQueue

  const GMAIL_ARCHIVE := "__archive__"

  /** `modseq` is the history id the message had when it was listed, if known. */
  datatype Ref = Ref(mailbox: string, id: nat, modseq: Option<nat>)

  datatype Mail = Mail(labels: set<string>, historyId: Option<nat>)

  datatype Action = Leave | MarkRead | MarkUnread | Flag | Unflag | Move(destination: string)

  datatype Item = Item(message: Ref, action: Action)

  datatype Applied = Applied(
    current: Ref, previous: Ref, action: Action, previousRead: bool, previousFlagged: Option<bool>, previousInInbox: Option<bool>)

  datatype Status = Success | Failed | Undone | UndoFailed | NotUndoable

  datatype Operation = Operation(item: Item, status: Status, applied: Option<Applied>)

  /** What becomes of one operation's requests: carried out and answered, never carried out, or carried out with the
      answer lost. Gmail reports the message's next history id, if any. */
  datatype Fate = Answered(historyId: Option<nat>) | Refused | Lost(historyId: Option<nat>)

  datatype Change = Change(add: set<string>, remove: set<string>)

  function Changed(labels: set<string>, change: Change): set<string> {
    labels - change.remove + change.add
  }

  /** The labels that applying an action adds and removes. */
  function ApplyChange(mailbox: string, action: Action): Change {
    match action
    case Leave => Change({}, {})
    case MarkRead => Change({}, {"UNREAD"})
    case MarkUnread => Change({"UNREAD"}, {})
    case Flag => Change({"STARRED"}, {})
    case Unflag => Change({}, {"STARRED"})
    case Move(destination) =>
      var add := if destination == GMAIL_ARCHIVE then {} else {destination};
      var source := if mailbox == GMAIL_ARCHIVE || destination == "SPAM" then {} else {mailbox};
      var remove := source + if destination == GMAIL_ARCHIVE || destination == "SPAM" then {"INBOX"} else {};
      Change(add, remove - add)
  }

  function IsTrue(b: Option<bool>): bool {
    b.Some? && b.value
  }

  function UndoChange(applied: Applied): Change {
    match applied.action
    case Leave => Change({}, {})
    case MarkRead => if applied.previousRead then Change({}, {"UNREAD"}) else Change({"UNREAD"}, {})
    case MarkUnread => if applied.previousRead then Change({}, {"UNREAD"}) else Change({"UNREAD"}, {})
    case Flag => if IsTrue(applied.previousFlagged) then Change({"STARRED"}, {}) else Change({}, {"STARRED"})
    case Unflag => if IsTrue(applied.previousFlagged) then Change({"STARRED"}, {}) else Change({}, {"STARRED"})
    case Move(_) =>
      var source := if applied.previous.mailbox == GMAIL_ARCHIVE then {} else {applied.previous.mailbox};
      var inbox := if applied.previousInInbox.Some? then applied.previousInInbox.value else applied.previous.mailbox == "INBOX";
      var add := source + if inbox then {"INBOX"} else {};
      var remove := if applied.current.mailbox == GMAIL_ARCHIVE then {} else {applied.current.mailbox};
      Change(add, remove - add)
  }

  /** The record that applying leaves behind; `before` is the message as it was read, `after` as it came back. */
  function Record(item: Item, before: Mail, after: Mail): Applied {
    var mailbox := if item.action.Move? then item.action.destination else item.message.mailbox;
    Applied(Ref(mailbox, item.message.id, after.historyId), Ref(item.message.mailbox, item.message.id, before.historyId), item.action,
            "UNREAD" !in before.labels,
            if item.action.Flag? || item.action.Unflag? then Some("STARRED" in before.labels) else None,
            if item.action.Move? then Some("INBOX" in before.labels) else None)
  }

  /** The message exists and is as it was when the item was made. */
  predicate IsFresh(mails: map<nat, Mail>, message: Ref) {
    message.id in mails && (message.modseq.Some? ==> mails[message.id].historyId == message.modseq)
  }

  function Modified(mails: map<nat, Mail>, id: nat, change: Change, historyId: Option<nat>): map<nat, Mail> {
    if id in mails then mails[id := Mail(Changed(mails[id].labels, change), historyId)] else mails
  }

  /** One item of the proposal. */
  function AppliedOne(mails: map<nat, Mail>, item: Item, fate: Fate): (map<nat, Mail>, Operation) {
    if fate.Refused? || !IsFresh(mails, item.message) then (mails, Operation(item, Failed, None))
    else if item.action.Leave? then (mails, Operation(item, Success, None))
    else
      var after := Modified(mails, item.message.id, ApplyChange(item.message.mailbox, item.action), fate.historyId);
      (after,
       if fate.Answered? then Operation(item, Success, Some(Record(item, mails[item.message.id], after[item.message.id])))
       else Operation(item, Failed, None))
  }

  function AppliedAll(mails: map<nat, Mail>, items: seq<Item>, fates: seq<Fate>): (r: (map<nat, Mail>, seq<Operation>))
    requires |fates| == |items|
    ensures |r.1| == |items|
  {
    if items == [] then (mails, [])
    else
      var n := |items| - 1;
      var (before, operations) := AppliedAll(mails, items[..n], fates[..n]);
      var (after, operation) := AppliedOne(before, items[n], fates[n]);
      (after, operations + [operation])
  }

  /** One operation of the batch to undo. */
  function UndoneOne(mails: map<nat, Mail>, operation: Operation, fate: Fate): (map<nat, Mail>, Operation) {
    if operation.status != Success || operation.applied.None? then
      (mails, if operation.status == Failed then operation else operation.(status := NotUndoable))
    else
      var applied := operation.applied.value;
      if fate.Refused? || applied.current.id !in mails then (mails, operation.(status := UndoFailed))
      else
        (Modified(mails, applied.current.id, UndoChange(applied), fate.historyId),
         operation.(status := if fate.Answered? then Undone else UndoFailed))
  }

  function UndoneAll(mails: map<nat, Mail>, batch: seq<Operation>, fates: seq<Fate>): (r: (map<nat, Mail>, seq<Operation>))
    requires |fates| == |batch|
    ensures |r.1| == |batch|
  {
    if batch == [] then (mails, [])
    else
      var n := |batch| - 1;
      var (before, operations) := UndoneAll(mails, batch[..n], fates[..n]);
      var (after, operation) := UndoneOne(before, batch[n], fates[n]);
      (after, operations + [operation])
  }

  class GmailAccount {
    var mails: map<nat, Mail>

    constructor (mails: map<nat, Mail>)
      ensures this.mails == mails
    {
      this.mails := mails;
    }

    method Modify(id: nat, add: set<string>, remove: set<string>, historyId: Option<nat>)
      requires id in mails
      modifies this
      ensures mails == Modified(old(mails), id, Change(add, remove), historyId)
    {
      mails := mails[id := Mail(mails[id].labels - remove + add, historyId)];
    }

    method Apply(item: Item, fate: Fate) returns (operation: Operation)
      modifies this
      ensures (mails, operation) == AppliedOne(old(mails), item, fate)
    {
      if fate.Refused? || !IsFresh(mails, item.message) {
        return Operation(item, Failed, None);
      }
      var id := item.message.id;
      var before := mails[id];
      match item.action {
        case Leave => return Operation(item, Success, None);
        case MarkRead => Modify(id, {}, {"UNREAD"}, fate.historyId);
        case MarkUnread => Modify(id, {"UNREAD"}, {}, fate.historyId);
        case Flag => Modify(id, {"STARRED"}, {}, fate.historyId);
        case Unflag => Modify(id, {}, {"STARRED"}, fate.historyId);
        case Move(destination) =>
          var add := if destination == GMAIL_ARCHIVE then {} else {destination};
          var remove := if item.message.mailbox == GMAIL_ARCHIVE || destination == "SPAM" then {} else {item.message.mailbox};
          if destination == GMAIL_ARCHIVE || destination == "SPAM" {
            remove := remove + {"INBOX"};
          }
          assert remove - add == ApplyChange(item.message.mailbox, item.action).remove;
          Modify(id, add, remove - add, fate.historyId);
      }
      operation := if fate.Answered? then Operation(item, Success, Some(Record(item, before, mails[id]))) else Operation(item, Failed, None);
    }

    method Undo(operation: Operation, fate: Fate) returns (result: Operation)
      modifies this
      ensures (mails, result) == UndoneOne(old(mails), operation, fate)
    {
      if operation.status != Success || operation.applied.None? {
        return if operation.status == Failed then operation else operation.(status := NotUndoable);
      }
      var applied := operation.applied.value;
      var id := applied.current.id;
      if fate.Refused? || id !in mails {
        return operation.(status := UndoFailed);
      }
      var change := UndoChange(applied);
      Modify(id, change.add, change.remove, fate.historyId);
      result := operation.(status := if fate.Answered? then Undone else UndoFailed);
    }

    /** The loop of `applyApprovedProposal`. */
    method ApplyApprovedProposal(items: seq<Item>, fates: seq<Fate>) returns (operations: seq<Operation>)
      requires |fates| == |items|
      modifies this
      ensures (mails, operations) == AppliedAll(old(mails), items, fates)
    {
      operations := [];
      for i := 0 to |items|
        invariant (mails, operations) == AppliedAll(old(mails), items[..i], fates[..i])
      {
        assert items[..i + 1][..i] == items[..i] && fates[..i + 1][..i] == fates[..i];
        var operation := Apply(items[i], fates[i]);
        operations := operations + [operation];
      }
      assert items[..|items|] == items && fates[..|items|] == fates;
    }

    /** The loop of `undoBatch`, from the first operation to the last. */
    method UndoBatch(batch: seq<Operation>, fates: seq<Fate>) returns (operations: seq<Operation>)
      requires |fates| == |batch|
      modifies this
      ensures (mails, operations) == UndoneAll(old(mails), batch, fates)
    {
      operations := [];
      for i := 0 to |batch|
        invariant (mails, operations) == UndoneAll(old(mails), batch[..i], fates[..i])
      {
        assert batch[..i + 1][..i] == batch[..i] && fates[..i + 1][..i] == fates[..i];
        var operation := Undo(batch[i], fates[i]);
        operations := operations + [operation];
      }
      assert batch[..|batch|] == batch && fates[..|batch|] == fates;
    }
  }
}
