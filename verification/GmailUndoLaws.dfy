/** When undoing a batch gives every message its labels back. */
module GmailUndoLaws {
  import opened PriorityQueue
  import opened GmailActions

  /** The move's source label was present and its destination label was not, as far as that matters. */
  predicate Reversible(mailbox: string, action: Action, labels: set<string>) {
    action.Move? ==>
      && (mailbox == GMAIL_ARCHIVE || mailbox in labels)
      && (action.destination == GMAIL_ARCHIVE || action.destination !in labels || action.destination == "INBOX" || action.destination == mailbox)
  }

  /** Applying an action and undoing it restores the labels exactly when the action is reversible on them. */
  lemma UndoRestoresIff(item: Item, before: Mail, after: Mail)
    requires after.labels == Changed(before.labels, ApplyChange(item.message.mailbox, item.action))
    ensures Changed(after.labels, UndoChange(Record(item, before, after))) == before.labels <==>
      Reversible(item.message.mailbox, item.action, before.labels)
  {
    if item.action.Move? {
      MoveRestoresIff(item, before, after);
    }
  }

  lemma MoveRestoresIff(item: Item, before: Mail, after: Mail)
    requires item.action.Move? && after.labels == Changed(before.labels, ApplyChange(item.message.mailbox, item.action))
    ensures Changed(after.labels, UndoChange(Record(item, before, after))) == before.labels <==>
      Reversible(item.message.mailbox, item.action, before.labels)
  {
    var source, destination := item.message.mailbox, item.action.destination;
    var restored := Changed(after.labels, UndoChange(Record(item, before, after)));
    assert source != GMAIL_ARCHIVE ==> source in restored;
    assert destination != GMAIL_ARCHIVE && destination != source && destination != "INBOX" ==> destination !in restored;
    forall name | Reversible(source, item.action, before.labels)
      ensures name in restored <==> name in before.labels
    {
    }
  }

  // One message at a time.

  ghost predicate DistinctMessages(items: seq<Item>) {
    forall i, j :: 0 <= i < j < |items| ==> items[i].message.id != items[j].message.id
  }

  predicate SameMail(a: map<nat, Mail>, b: map<nat, Mail>, id: nat) {
    (id in a <==> id in b) && (id in a ==> a[id] == b[id])
  }

  lemma ApplyIsLocal(a: map<nat, Mail>, b: map<nat, Mail>, item: Item, fate: Fate)
    requires SameMail(a, b, item.message.id)
    ensures AppliedOne(a, item, fate).1 == AppliedOne(b, item, fate).1
    ensures SameMail(AppliedOne(a, item, fate).0, AppliedOne(b, item, fate).0, item.message.id)
  {
    hide ApplyChange, Record, Changed;
  }

  lemma ApplyLeavesOthers(mails: map<nat, Mail>, item: Item, fate: Fate, id: nat)
    requires id != item.message.id
    ensures SameMail(mails, AppliedOne(mails, item, fate).0, id)
  {
    hide ApplyChange, Record, Changed;
  }

  lemma {:induction false} ApplyAllLeavesOthers(mails: map<nat, Mail>, items: seq<Item>, fates: seq<Fate>, id: nat)
    requires |fates| == |items| && forall i :: 0 <= i < |items| ==> items[i].message.id != id
    ensures SameMail(mails, AppliedAll(mails, items, fates).0, id)
  {
    if items != [] {
      hide AppliedOne;
      var n := |items| - 1;
      ApplyAllLeavesOthers(mails, items[..n], fates[..n], id);
      ApplyLeavesOthers(AppliedAll(mails, items[..n], fates[..n]).0, items[n], fates[n], id);
    }
  }

  /** With distinct messages every item of a batch does what it would do alone. */
  lemma {:induction false} AppliedAlone(mails: map<nat, Mail>, items: seq<Item>, fates: seq<Fate>, i: nat)
    requires |fates| == |items| && DistinctMessages(items) && i < |items|
    ensures AppliedAll(mails, items, fates).1[i] == AppliedOne(mails, items[i], fates[i]).1
    ensures SameMail(AppliedAll(mails, items, fates).0, AppliedOne(mails, items[i], fates[i]).0, items[i].message.id)
  {
    hide AppliedOne;
    var n := |items| - 1;
    var before := AppliedAll(mails, items[..n], fates[..n]).0;
    if i < n {
      AppliedAlone(mails, items[..n], fates[..n], i);
      ApplyLeavesOthers(before, items[n], fates[n], items[i].message.id);
    } else {
      ApplyAllLeavesOthers(mails, items[..n], fates[..n], items[n].message.id);
      ApplyIsLocal(before, mails, items[n], fates[n]);
    }
  }

  /** An operation records the message of its item. */
  ghost predicate Faithful(operation: Operation) {
    operation.applied.Some? ==> operation.applied.value.current.id == operation.item.message.id
  }

  lemma UndoIsLocal(a: map<nat, Mail>, b: map<nat, Mail>, operation: Operation, fate: Fate)
    requires Faithful(operation) && SameMail(a, b, operation.item.message.id)
    ensures UndoneOne(a, operation, fate).1 == UndoneOne(b, operation, fate).1
    ensures SameMail(UndoneOne(a, operation, fate).0, UndoneOne(b, operation, fate).0, operation.item.message.id)
  {
    hide UndoChange, Changed;
  }

  lemma UndoLeavesOthers(mails: map<nat, Mail>, operation: Operation, fate: Fate, id: nat)
    requires Faithful(operation) && id != operation.item.message.id
    ensures SameMail(mails, UndoneOne(mails, operation, fate).0, id)
  {
    hide UndoChange, Changed;
  }

  ghost predicate BatchOf(batch: seq<Operation>) {
    && (forall i :: 0 <= i < |batch| ==> Faithful(batch[i]))
    && (forall i, j :: 0 <= i < j < |batch| ==> batch[i].item.message.id != batch[j].item.message.id)
  }

  lemma {:induction false} UndoAllLeavesOthers(mails: map<nat, Mail>, batch: seq<Operation>, fates: seq<Fate>, id: nat)
    requires |fates| == |batch| && forall i :: 0 <= i < |batch| ==> Faithful(batch[i]) && batch[i].item.message.id != id
    ensures SameMail(mails, UndoneAll(mails, batch, fates).0, id)
  {
    if batch != [] {
      hide UndoneOne, Faithful;
      var n := |batch| - 1;
      UndoAllLeavesOthers(mails, batch[..n], fates[..n], id);
      UndoLeavesOthers(UndoneAll(mails, batch[..n], fates[..n]).0, batch[n], fates[n], id);
    }
  }

  lemma {:induction false} UndoneAlone(mails: map<nat, Mail>, batch: seq<Operation>, fates: seq<Fate>, i: nat)
    requires |fates| == |batch| && BatchOf(batch) && i < |batch|
    ensures UndoneAll(mails, batch, fates).1[i] == UndoneOne(mails, batch[i], fates[i]).1
    ensures SameMail(UndoneAll(mails, batch, fates).0, UndoneOne(mails, batch[i], fates[i]).0, batch[i].item.message.id)
  {
    hide UndoneOne, Faithful;
    var n := |batch| - 1;
    var before := UndoneAll(mails, batch[..n], fates[..n]).0;
    if i < n {
      UndoneAlone(mails, batch[..n], fates[..n], i);
      UndoLeavesOthers(before, batch[n], fates[n], batch[i].item.message.id);
    } else {
      UndoAllLeavesOthers(mails, batch[..n], fates[..n], batch[n].item.message.id);
      UndoIsLocal(before, mails, batch[n], fates[n]);
    }
  }

  lemma AppliedFaithful(mails: map<nat, Mail>, item: Item, fate: Fate)
    ensures AppliedOne(mails, item, fate).1.item == item && Faithful(AppliedOne(mails, item, fate).1)
  {
    hide ApplyChange, Changed;
  }

  // Apply, then undo.

  /** The mailbox and the statuses after a proposal was applied and its batch undone. */
  function RoundTrip(mails: map<nat, Mail>, items: seq<Item>, applying: seq<Fate>, undoing: seq<Fate>): (r: (map<nat, Mail>, seq<Operation>))
    requires |applying| == |items| == |undoing|
    ensures |r.1| == |items|
  {
    var (applied, batch) := AppliedAll(mails, items, applying);
    UndoneAll(applied, batch, undoing)
  }

  lemma RoundTripAlone(mails: map<nat, Mail>, items: seq<Item>, applying: seq<Fate>, undoing: seq<Fate>, i: nat)
    requires |applying| == |items| == |undoing| && DistinctMessages(items) && i < |items|
    ensures var (after, operation) := AppliedOne(mails, items[i], applying[i]);
      && RoundTrip(mails, items, applying, undoing).1[i] == UndoneOne(after, operation, undoing[i]).1
      && SameMail(RoundTrip(mails, items, applying, undoing).0, UndoneOne(after, operation, undoing[i]).0, items[i].message.id)
  {
    hide AppliedOne, UndoneOne, AppliedAll, UndoneAll, Faithful;
    var (applied, batch) := AppliedAll(mails, items, applying);
    forall k | 0 <= k < |batch|
      ensures Faithful(batch[k]) && batch[k].item == items[k]
    {
      AppliedAlone(mails, items, applying, k);
      AppliedFaithful(mails, items[k], applying[k]);
    }
    AppliedAlone(mails, items, applying, i);
    UndoneAlone(applied, batch, undoing, i);
    UndoIsLocal(applied, AppliedOne(mails, items[i], applying[i]).0, batch[i], undoing[i]);
  }

  function LabelsOf(mails: map<nat, Mail>, id: nat): set<string> {
    if id in mails then mails[id].labels else {}
  }

  /** What a batch and its undo did to the message of one item. Undone means restored exactly when the action was
      reversible; a message that was left alone, or whose action failed and was not carried out, never changed. */
  ghost predicate Outcome(mails: map<nat, Mail>, final: map<nat, Mail>, item: Item, applying: Fate, status: Status) {
    var id := item.message.id;
    && (id in mails <==> id in final)
    && (status in {Undone, UndoFailed, NotUndoable, Failed})
    && (status == Undone ==> id in mails)
    && (status == Undone ==> (LabelsOf(final, id) == LabelsOf(mails, id) <==> Reversible(item.message.mailbox, item.action, LabelsOf(mails, id))))
    && (status == NotUndoable || (status == Failed && !applying.Lost?) ==> SameMail(mails, final, id))
  }

  /** Every item of a batch on distinct messages has that outcome. */
  lemma BatchUndo(mails: map<nat, Mail>, items: seq<Item>, applying: seq<Fate>, undoing: seq<Fate>, i: nat)
    requires |applying| == |items| == |undoing| && DistinctMessages(items) && i < |items|
    ensures var (final, operations) := RoundTrip(mails, items, applying, undoing);
      Outcome(mails, final, items[i], applying[i], operations[i].status)
  {
    hide RoundTrip, AppliedAll, UndoneAll, ApplyChange, UndoChange, Record, Changed, Reversible;
    RoundTripAlone(mails, items, applying, undoing, i);
    RoundTripOne(mails, items[i], applying[i], undoing[i]);
  }

  lemma RoundTripOne(mails: map<nat, Mail>, item: Item, applying: Fate, undoing: Fate)
    ensures var (after, operation) := AppliedOne(mails, item, applying);
      var (final, undone) := UndoneOne(after, operation, undoing);
      Outcome(mails, final, item, applying, undone.status)
  {
    hide ApplyChange, UndoChange, Changed, Reversible;
    var (after, operation) := AppliedOne(mails, item, applying);
    if item.message.id in mails && item.message.id in after && operation.applied.Some? {
      UndoRestoresIff(item, mails[item.message.id], after[item.message.id]);
    }
  }

  /** Messages outside the batch are never touched. */
  lemma BatchLeavesOthers(mails: map<nat, Mail>, items: seq<Item>, applying: seq<Fate>, undoing: seq<Fate>, id: nat)
    requires |applying| == |items| == |undoing| && DistinctMessages(items)
    requires forall i :: 0 <= i < |items| ==> items[i].message.id != id
    ensures SameMail(mails, RoundTrip(mails, items, applying, undoing).0, id)
  {
    hide AppliedOne, UndoneOne, Faithful;
    var (applied, batch) := AppliedAll(mails, items, applying);
    ApplyAllLeavesOthers(mails, items, applying, id);
    forall k | 0 <= k < |batch|
      ensures Faithful(batch[k]) && batch[k].item == items[k]
    {
      AppliedAlone(mails, items, applying, k);
      AppliedFaithful(mails, items[k], applying[k]);
    }
    UndoAllLeavesOthers(applied, batch, undoing, id);
  }

  /** The status `undoBatch` stores: undone when every operation it tried to undo was undone. */
  predicate BatchUndone(operations: seq<Operation>) {
    forall i :: 0 <= i < |operations| ==> operations[i].status != UndoFailed
  }

  /** When no answer was lost while applying and the batch is reported undone, every message has its old labels
      exactly when every action that succeeded was reversible. */
  lemma ReportedUndoneIsRestored(mails: map<nat, Mail>, items: seq<Item>, applying: seq<Fate>, undoing: seq<Fate>)
    requires |applying| == |items| == |undoing| && DistinctMessages(items)
    requires forall i :: 0 <= i < |items| ==> !applying[i].Lost?
    requires BatchUndone(RoundTrip(mails, items, applying, undoing).1)
    ensures RoundTrip(mails, items, applying, undoing).0.Keys == mails.Keys
    ensures (forall id :: LabelsOf(RoundTrip(mails, items, applying, undoing).0, id) == LabelsOf(mails, id)) <==>
      forall i :: 0 <= i < |items| && RoundTrip(mails, items, applying, undoing).1[i].status == Undone ==> ReversibleIn(mails, items[i])
  {
    hide RoundTrip, Reversible;
    var final, done := RoundTrip(mails, items, applying, undoing).0, RoundTrip(mails, items, applying, undoing).1;
    forall i | 0 <= i < |items|
      ensures Outcome(mails, final, items[i], applying[i], done[i].status)
      ensures done[i].status == Undone || SameMail(mails, final, items[i].message.id)
    {
      BatchUndo(mails, items, applying, undoing, i);
    }
    forall id
      ensures id in final <==> id in mails
      ensures SameMail(mails, final, id) || exists i :: 0 <= i < |items| && items[i].message.id == id
    {
      if forall i :: 0 <= i < |items| ==> items[i].message.id != id {
        BatchLeavesOthers(mails, items, applying, undoing, id);
      }
    }
    if forall i :: 0 <= i < |items| && done[i].status == Undone ==> ReversibleIn(mails, items[i]) {
      forall id
        ensures LabelsOf(final, id) == LabelsOf(mails, id)
      {
        if !SameMail(mails, final, id) {
          var i :| 0 <= i < |items| && items[i].message.id == id;
          assert Outcome(mails, final, items[i], applying[i], done[i].status);
        }
      }
    }
  }

  predicate ReversibleIn(mails: map<nat, Mail>, item: Item) {
    Reversible(item.message.mailbox, item.action, LabelsOf(mails, item.message.id))
  }

  // What goes wrong otherwise.

  lemma ApplyOneMore(mails: map<nat, Mail>, items: seq<Item>, fates: seq<Fate>, item: Item, fate: Fate)
    requires |fates| == |items|
    ensures var (before, operations) := AppliedAll(mails, items, fates);
      AppliedAll(mails, items + [item], fates + [fate]) ==
        (AppliedOne(before, item, fate).0, operations + [AppliedOne(before, item, fate).1])
  {
    hide AppliedOne;
    assert (items + [item])[..|items|] == items && (fates + [fate])[..|fates|] == fates;
  }

  lemma UndoOneMore(mails: map<nat, Mail>, batch: seq<Operation>, fates: seq<Fate>, operation: Operation, fate: Fate)
    requires |fates| == |batch|
    ensures var (before, operations) := UndoneAll(mails, batch, fates);
      UndoneAll(mails, batch + [operation], fates + [fate]) ==
        (UndoneOne(before, operation, fate).0, operations + [UndoneOne(before, operation, fate).1])
  {
    hide UndoneOne;
    assert (batch + [operation])[..|batch|] == batch && (fates + [fate])[..|fates|] == fates;
  }

  const UNREAD_MAIL: map<nat, Mail> := map[0 := Mail({"UNREAD"}, None)]
  const READ_MAIL: map<nat, Mail> := map[0 := Mail({}, None)]
  const READ_IT := Item(Ref("INBOX", 0, None), MarkRead)
  const FIRST_READ := Operation(READ_IT, Success, Some(Applied(Ref("INBOX", 0, None), Ref("INBOX", 0, None), MarkRead, false, None, None)))
  const SECOND_READ := Operation(READ_IT, Success, Some(Applied(Ref("INBOX", 0, None), Ref("INBOX", 0, None), MarkRead, true, None, None)))

  lemma ReadTwice()
    ensures AppliedOne(UNREAD_MAIL, READ_IT, Answered(None)) == (READ_MAIL, FIRST_READ)
    ensures AppliedOne(READ_MAIL, READ_IT, Answered(None)) == (READ_MAIL, SECOND_READ)
  {
    assert Changed({"UNREAD"}, Change({}, {"UNREAD"})) == {} && Changed({}, Change({}, {"UNREAD"})) == {};
    assert Modified(UNREAD_MAIL, 0, Change({}, {"UNREAD"}), None) == READ_MAIL && Modified(READ_MAIL, 0, Change({}, {"UNREAD"}), None) == READ_MAIL;
  }

  lemma UndoTwice()
    ensures UndoneOne(READ_MAIL, FIRST_READ, Answered(None)) == (UNREAD_MAIL, FIRST_READ.(status := Undone))
    ensures UndoneOne(UNREAD_MAIL, SECOND_READ, Answered(None)) == (READ_MAIL, SECOND_READ.(status := Undone))
  {
    assert Changed({"UNREAD"}, Change({}, {"UNREAD"})) == {} && Changed({}, Change({"UNREAD"}, {})) == {"UNREAD"};
    assert Modified(UNREAD_MAIL, 0, Change({}, {"UNREAD"}), None) == READ_MAIL && Modified(READ_MAIL, 0, Change({"UNREAD"}, {}), None) == UNREAD_MAIL;
  }

  /** Listing an unread message twice as read, without history ids, and undoing the batch leaves it read: the second
      operation remembers what the first one had made of it, and the undo runs in the same order. */
  lemma SameMessageTwice()
    ensures var fine := Answered(None);
      RoundTrip(UNREAD_MAIL, [READ_IT, READ_IT], [fine, fine], [fine, fine]) ==
        (READ_MAIL, [FIRST_READ.(status := Undone), SECOND_READ.(status := Undone)])
    ensures LabelsOf(READ_MAIL, 0) != LabelsOf(UNREAD_MAIL, 0)
  {
    hide AppliedOne, UndoneOne, Modified;
    var fine := Answered(None);
    ReadTwice();
    UndoTwice();
    assert [] + [READ_IT] == [READ_IT] && [READ_IT] + [READ_IT] == [READ_IT, READ_IT] && [] + [fine] == [fine] && [fine] + [fine] == [fine, fine];
    assert [] + [FIRST_READ] == [FIRST_READ] && [FIRST_READ] + [SECOND_READ] == [FIRST_READ, SECOND_READ];
    var undone := FIRST_READ.(status := Undone);
    assert [] + [undone] == [undone] && [undone] + [SECOND_READ.(status := Undone)] == [undone, SECOND_READ.(status := Undone)];
    ApplyOneMore(UNREAD_MAIL, [], [], READ_IT, fine);
    ApplyOneMore(UNREAD_MAIL, [READ_IT], [fine], READ_IT, fine);
    UndoOneMore(READ_MAIL, [], [], FIRST_READ, fine);
    UndoOneMore(READ_MAIL, [FIRST_READ], [fine], SECOND_READ, fine);
  }
}
