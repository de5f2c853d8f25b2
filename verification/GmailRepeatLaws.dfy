/** Undoing a batch that may name a message more than once: exactly when its labels come back. */
module GmailRepeatLaws {
  import opened PriorityQueue
  import opened GmailActions
  import opened GmailUndoLaws

  // What the undo leaves, label by label.

  /** Undoing operation `i` changes this message. */
  ghost predicate Acts(batch: seq<Operation>, fates: seq<Fate>, i: nat, id: nat)
    requires |fates| == |batch|
  {
    i < |batch| && batch[i].status == Success && batch[i].applied.Some? && batch[i].applied.value.current.id == id && !fates[i].Refused?
  }

  /** ... and adds or removes this label. */
  ghost predicate Speaks(batch: seq<Operation>, fates: seq<Fate>, i: nat, id: nat, name: string)
    requires |fates| == |batch|
  {
    Acts(batch, fates, i, id) && (name in UndoChange(batch[i].applied.value).add || name in UndoChange(batch[i].applied.value).remove)
  }

  /** Operation `i`, undone, puts the label on. */
  ghost predicate SaysOn(batch: seq<Operation>, i: nat, name: string) {
    i < |batch| && batch[i].applied.Some? && name in UndoChange(batch[i].applied.value).add
  }

  ghost predicate LastWord(batch: seq<Operation>, fates: seq<Fate>, i: nat, id: nat, name: string)
    requires |fates| == |batch|
  {
    Speaks(batch, fates, i, id, name) && forall j: nat :: i < j < |batch| ==> !Speaks(batch, fates, j, id, name)
  }

  ghost predicate Unspoken(batch: seq<Operation>, fates: seq<Fate>, id: nat, name: string)
    requires |fates| == |batch|
  {
    forall i: nat :: i < |batch| ==> !Speaks(batch, fates, i, id, name)
  }

  lemma SpeaksInFront(batch: seq<Operation>, fates: seq<Fate>, i: nat, id: nat, name: string)
    requires |fates| == |batch| && i + 1 < |batch|
    ensures Speaks(batch[..|batch| - 1], fates[..|batch| - 1], i, id, name) <==> Speaks(batch, fates, i, id, name)
  {
  }

  lemma UndoneOneLabel(mails: map<nat, Mail>, batch: seq<Operation>, fates: seq<Fate>, n: nat, id: nat, name: string)
    requires |fates| == |batch| && n < |batch| && id in mails
    ensures var after := UndoneOne(mails, batch[n], fates[n]).0;
      && id in after
      && (Speaks(batch, fates, n, id, name) ==> (name in LabelsOf(after, id) <==> SaysOn(batch, n, name)))
      && (!Speaks(batch, fates, n, id, name) ==> (name in LabelsOf(after, id) <==> name in LabelsOf(mails, id)))
  {
    hide UndoChange;
  }

  /** A label is on a message after the undo exactly as the last operation that speaks about it says, or as it was before
      if none does. */
  lemma {:induction false} UndoneLabel(mails: map<nat, Mail>, batch: seq<Operation>, fates: seq<Fate>, id: nat, name: string)
    requires |fates| == |batch| && id in mails
    ensures id in UndoneAll(mails, batch, fates).0
    ensures Unspoken(batch, fates, id, name) ==> (name in LabelsOf(UndoneAll(mails, batch, fates).0, id) <==> name in LabelsOf(mails, id))
    ensures forall i: nat :: LastWord(batch, fates, i, id, name) ==>
      (name in LabelsOf(UndoneAll(mails, batch, fates).0, id) <==> SaysOn(batch, i, name))
  {
    hide UndoneOne, UndoChange, Speaks, LabelsOf;
    if batch == [] {
      forall i: nat
        ensures !LastWord(batch, fates, i, id, name)
      {
        if LastWord(batch, fates, i, id, name) { SpeakerIsIndex(batch, fates, i, id, name); }
      }
    } else {
      var n := |batch| - 1;
      UndoneLabel(mails, batch[..n], fates[..n], id, name);
      UndoneOneLabel(UndoneAll(mails, batch[..n], fates[..n]).0, batch, fates, n, id, name);
      forall i: nat | i < n
        ensures Speaks(batch[..n], fates[..n], i, id, name) <==> Speaks(batch, fates, i, id, name)
      {
        SpeaksInFront(batch, fates, i, id, name);
      }
      forall i: nat | LastWord(batch, fates, i, id, name)
        ensures name in LabelsOf(UndoneAll(mails, batch, fates).0, id) <==> SaysOn(batch, i, name)
      {
        SpeakerIsIndex(batch, fates, i, id, name);
        if i < n {
          assert LastWord(batch[..n], fates[..n], i, id, name);
          assert SaysOn(batch[..n], i, name) <==> SaysOn(batch, i, name);
        }
      }
    }
  }

  lemma SpeakerIsIndex(batch: seq<Operation>, fates: seq<Fate>, i: nat, id: nat, name: string)
    requires |fates| == |batch| && Speaks(batch, fates, i, id, name)
    ensures i < |batch|
  {
  }

  // The whole round trip.

  ghost function StateBefore(mails: map<nat, Mail>, items: seq<Item>, fates: seq<Fate>, i: nat): map<nat, Mail>
    requires |fates| == |items| && i <= |items|
  {
    AppliedAll(mails, items[..i], fates[..i]).0
  }

  /** Each operation is that of its item, applied to what the items before it left. */
  lemma {:induction false} AppliedInTurn(mails: map<nat, Mail>, items: seq<Item>, fates: seq<Fate>, i: nat)
    requires |fates| == |items| && i < |items|
    ensures AppliedAll(mails, items, fates).1[i] == AppliedOne(StateBefore(mails, items, fates, i), items[i], fates[i]).1
    ensures StateBefore(mails, items, fates, i + 1) == AppliedOne(StateBefore(mails, items, fates, i), items[i], fates[i]).0
  {
    hide AppliedOne;
    var n := |items| - 1;
    assert items[..i + 1][..i] == items[..i] && fates[..i + 1][..i] == fates[..i];
    if i < n {
      AppliedInTurn(mails, items[..n], fates[..n], i);
      assert items[..n][..i] == items[..i] && fates[..n][..i] == fates[..i];
    }
  }

  lemma {:induction false} MessageStays(mails: map<nat, Mail>, items: seq<Item>, fates: seq<Fate>, id: nat)
    requires |fates| == |items| && id in mails
    ensures id in AppliedAll(mails, items, fates).0
  {
    if items != [] {
      hide ApplyChange, Record, Changed;
      MessageStays(mails, items[..|items| - 1], fates[..|items| - 1], id);
    }
  }

  /** For this label the undo gives back what was there. */
  ghost predicate LabelReturns(mails: map<nat, Mail>, items: seq<Item>, applying: seq<Fate>, undoing: seq<Fate>, id: nat, name: string)
    requires |applying| == |items| == |undoing|
  {
    var (applied, batch) := AppliedAll(mails, items, applying);
    && (Unspoken(batch, undoing, id, name) ==> (name in LabelsOf(applied, id) <==> name in LabelsOf(mails, id)))
    && (forall i: nat :: LastWord(batch, undoing, i, id, name) ==> (SaysOn(batch, i, name) <==> name in LabelsOf(mails, id)))
  }

  lemma {:induction false} SomeoneLast(batch: seq<Operation>, fates: seq<Fate>, id: nat, name: string, n: nat) returns (i: nat)
    requires |fates| == |batch| && n <= |batch| && !Unspoken(batch, fates, id, name)
    requires forall j: nat :: n <= j < |batch| ==> !Speaks(batch, fates, j, id, name)
    ensures LastWord(batch, fates, i, id, name)
    decreases n
  {
    hide Speaks;
    i := n - 1;
    if !Speaks(batch, fates, n - 1, id, name) { i := SomeoneLast(batch, fates, id, name, n - 1); }
  }

  /** Any batch, with any repetitions and whatever became of its requests: after applying and undoing it a message has its
      old labels if and only if for every label the last operation on that message whose undo adds or removes it puts back
      what was there at first, or, if there is none, applying left it as it was. */
  lemma RestoredIff(mails: map<nat, Mail>, items: seq<Item>, applying: seq<Fate>, undoing: seq<Fate>, id: nat)
    requires |applying| == |items| == |undoing| && id in mails
    ensures LabelsOf(RoundTrip(mails, items, applying, undoing).0, id) == LabelsOf(mails, id) <==>
      forall name :: LabelReturns(mails, items, applying, undoing, id, name)
  {
    hide AppliedAll, UndoneAll, UndoChange, LabelsOf, Speaks;
    var (applied, batch) := AppliedAll(mails, items, applying);
    var final := RoundTrip(mails, items, applying, undoing).0;
    MessageStays(mails, items, applying, id);
    forall name
      ensures LabelReturns(mails, items, applying, undoing, id, name) <==> (name in LabelsOf(final, id) <==> name in LabelsOf(mails, id))
    {
      UndoneLabel(applied, batch, undoing, id, name);
      if !Unspoken(batch, undoing, id, name) {
        var i := SomeoneLast(batch, undoing, id, name, |batch|);
      }
    }
  }

  // Reading and flagging.

  predicate MarksOn(item: Item, id: nat, name: string) {
    item.message.id == id &&
    match item.action
    case MarkRead => name == "UNREAD"
    case MarkUnread => name == "UNREAD"
    case Flag => name == "STARRED"
    case Unflag => name == "STARRED"
    case _ => false
  }

  /** Whether the mark puts its label on. */
  predicate PutsOn(item: Item) {
    item.action.MarkUnread? || item.action.Flag?
  }

  /** The message is only read, flagged or left alone. */
  ghost predicate OnlyMarks(items: seq<Item>, id: nat) {
    forall i :: 0 <= i < |items| && items[i].message.id == id ==> !items[i].action.Move?
  }

  ghost predicate AllDone(items: seq<Item>, batch: seq<Operation>, id: nat) {
    |batch| == |items| && forall i :: 0 <= i < |items| && items[i].message.id == id ==> batch[i].status == Success
  }

  ghost predicate LastMark(items: seq<Item>, i: nat, id: nat, name: string) {
    i < |items| && MarksOn(items[i], id, name) && forall j :: i < j < |items| ==> !MarksOn(items[j], id, name)
  }

  ghost predicate Unmarked(items: seq<Item>, id: nat, name: string) {
    forall i :: 0 <= i < |items| ==> !MarksOn(items[i], id, name)
  }

  lemma AppliedOneLabel(mails: map<nat, Mail>, item: Item, fate: Fate, id: nat, name: string)
    requires id in mails
    requires item.message.id == id ==> !item.action.Move? && AppliedOne(mails, item, fate).1.status == Success
    ensures var after := AppliedOne(mails, item, fate).0;
      && id in after
      && (MarksOn(item, id, name) ==> (name in LabelsOf(after, id) <==> PutsOn(item)))
      && (!MarksOn(item, id, name) ==> (name in LabelsOf(after, id) <==> name in LabelsOf(mails, id)))
  {
    hide Record;
  }

  /** While applying, the last mark decides. */
  lemma {:induction false} LabelWhileApplying(mails: map<nat, Mail>, items: seq<Item>, fates: seq<Fate>, id: nat, name: string)
    requires |fates| == |items| && id in mails && OnlyMarks(items, id) && AllDone(items, AppliedAll(mails, items, fates).1, id)
    ensures id in AppliedAll(mails, items, fates).0
    ensures Unmarked(items, id, name) ==> (name in LabelsOf(AppliedAll(mails, items, fates).0, id) <==> name in LabelsOf(mails, id))
    ensures forall i: nat :: LastMark(items, i, id, name) ==> (name in LabelsOf(AppliedAll(mails, items, fates).0, id) <==> PutsOn(items[i]))
  {
    hide AppliedOne, LabelsOf, MarksOn, PutsOn;
    if items != [] {
      var n := |items| - 1;
      var (before, operations) := AppliedAll(mails, items[..n], fates[..n]);
      forall i | 0 <= i < n && items[..n][i].message.id == id
        ensures operations[i].status == Success
      {
        assert AppliedAll(mails, items, fates).1[i] == operations[i];
      }
      LabelWhileApplying(mails, items[..n], fates[..n], id, name);
      AppliedOneLabel(before, items[n], fates[n], id, name);
      forall i: nat | LastMark(items, i, id, name)
        ensures name in LabelsOf(AppliedAll(mails, items, fates).0, id) <==> PutsOn(items[i])
      {
        if i < n { assert LastMark(items[..n], i, id, name) && items[..n][i] == items[i]; }
      }
    }
  }

  /** The undo of a mark speaks about its label alone, and puts it on exactly if it was on before the mark. */
  lemma MarkSpeaks(mails: map<nat, Mail>, item: Item, fate: Fate, id: nat, name: string)
    requires id in mails && item.message.id == id && !item.action.Move? && AppliedOne(mails, item, fate).1.status == Success
    ensures var applied := AppliedOne(mails, item, fate).1.applied;
      && (MarksOn(item, id, name) <==>
            applied.Some? && applied.value.current.id == id && (name in UndoChange(applied.value).add || name in UndoChange(applied.value).remove))
      && (MarksOn(item, id, name) ==> (name in UndoChange(applied.value).add <==> name in LabelsOf(mails, id)))
  {
  }

  lemma SpeaksIffMarks(mails: map<nat, Mail>, items: seq<Item>, applying: seq<Fate>, undoing: seq<Fate>, i: nat, id: nat, name: string)
    requires |applying| == |items| == |undoing| && id in mails && i < |items|
    requires OnlyMarks(items, id) && AllDone(items, AppliedAll(mails, items, applying).1, id)
    requires forall k :: 0 <= k < |items| && items[k].message.id == id ==> !undoing[k].Refused?
    ensures var batch := AppliedAll(mails, items, applying).1;
      && (Speaks(batch, undoing, i, id, name) <==> MarksOn(items[i], id, name))
      && (MarksOn(items[i], id, name) ==>
            (SaysOn(batch, i, name) <==> name in LabelsOf(StateBefore(mails, items, applying, i), id)))
  {
    hide AppliedAll, UndoChange, AppliedOne;
    var before := StateBefore(mails, items, applying, i);
    AppliedInTurn(mails, items, applying, i);
    MessageStays(mails, items[..i], applying[..i], id);
    AppliedFaithful(before, items[i], applying[i]);
    if items[i].message.id == id {
      MarkSpeaks(before, items[i], applying[i], id, name);
    }
  }

  /** `i` and `j` are the last but one and the last mark of this label on this message. */
  ghost predicate LastTwoMarks(items: seq<Item>, i: nat, j: nat, id: nat, name: string) {
    LastMark(items, j, id, name) && i < j && LastMark(items[..j], i, id, name)
  }

  ghost predicate LastButOneReturns(items: seq<Item>, id: nat, name: string, was: bool) {
    forall i: nat, j: nat :: LastTwoMarks(items, i, j, id, name) ==> PutsOn(items[i]) == was
  }

  lemma {:induction false} LastMarkExists(items: seq<Item>, id: nat, name: string, n: nat) returns (i: nat)
    requires n <= |items| && !Unmarked(items, id, name) && forall k :: n <= k < |items| ==> !MarksOn(items[k], id, name)
    ensures LastMark(items, i, id, name)
    decreases n
  {
    i := n - 1;
    if !MarksOn(items[n - 1], id, name) { i := LastMarkExists(items, id, name, n - 1); }
  }

  lemma FrontDone(mails: map<nat, Mail>, items: seq<Item>, fates: seq<Fate>, j: nat, id: nat)
    requires |fates| == |items| && j <= |items| && AllDone(items, AppliedAll(mails, items, fates).1, id)
    ensures AllDone(items[..j], AppliedAll(mails, items[..j], fates[..j]).1, id)
  {
    hide AppliedOne, AppliedAll;
    forall i | 0 <= i < j && items[..j][i].message.id == id
      ensures AppliedAll(mails, items[..j], fates[..j]).1[i].status == Success
    {
      AppliedInTurn(mails, items, fates, i);
      AppliedInTurn(mails, items[..j], fates[..j], i);
      assert items[..j][..i] == items[..i] && fates[..j][..i] == fates[..i];
    }
  }

  /** A label that is marked comes back if and only if the last mark but one, if there is one, had left it as it was. */
  lemma MarkedLabelReturnsIff(mails: map<nat, Mail>, items: seq<Item>, applying: seq<Fate>, undoing: seq<Fate>, id: nat, name: string)
    requires |applying| == |items| == |undoing| && id in mails
    requires OnlyMarks(items, id) && AllDone(items, AppliedAll(mails, items, applying).1, id)
    requires forall k :: 0 <= k < |items| && items[k].message.id == id ==> !undoing[k].Refused?
    ensures LabelReturns(mails, items, applying, undoing, id, name) <==> LastButOneReturns(items, id, name, name in LabelsOf(mails, id))
  {
    hide AppliedAll, UndoChange, LabelsOf, Speaks, MarksOn, PutsOn, AllDone;
    var (applied, batch) := AppliedAll(mails, items, applying);
    forall i: nat | i < |items|
      ensures Speaks(batch, undoing, i, id, name) <==> MarksOn(items[i], id, name)
    {
      SpeaksIffMarks(mails, items, applying, undoing, i, id, name);
    }
    LabelWhileApplying(mails, items, applying, id, name);
    if !Unmarked(items, id, name) {
      var j := LastMarkExists(items, id, name, |items|);
      assert LastWord(batch, undoing, j, id, name);
      SpeaksIffMarks(mails, items, applying, undoing, j, id, name);
      FrontDone(mails, items, applying, j, id);
      LabelWhileApplying(mails, items[..j], applying[..j], id, name);
      assert forall i: nat :: LastWord(batch, undoing, i, id, name) ==> i == j by { OneLastWord(batch, undoing, j, id, name); }
      assert forall i: nat, k: nat :: LastTwoMarks(items, i, k, id, name) ==> k == j;
      if !Unmarked(items[..j], id, name) {
        var i := LastMarkExists(items[..j], id, name, j);
        assert LastTwoMarks(items, i, j, id, name) && items[..j][i] == items[i];
        assert forall k: nat :: LastTwoMarks(items, k, j, id, name) ==> k == i;
      } else {
        assert forall k: nat :: !LastMark(items[..j], k, id, name);
      }
    } else {
      assert forall j: nat :: !LastMark(items, j, id, name);
      assert Unspoken(batch, undoing, id, name);
      NoLastWord(batch, undoing, id, name);
    }
  }

  lemma OneLastWord(batch: seq<Operation>, fates: seq<Fate>, j: nat, id: nat, name: string)
    requires |fates| == |batch| && LastWord(batch, fates, j, id, name)
    ensures forall i: nat :: LastWord(batch, fates, i, id, name) ==> i == j
  {
  }

  lemma NoLastWord(batch: seq<Operation>, fates: seq<Fate>, id: nat, name: string)
    requires |fates| == |batch| && Unspoken(batch, fates, id, name)
    ensures forall i: nat :: !LastWord(batch, fates, i, id, name)
  {
  }

  /** A message that is only read and flagged, any number of times, has its old labels after the undo if and only if, of
      the operations on each of the two labels, the last but one had left the label as it was at first. In particular one
      operation per label is always undone. */
  lemma RepeatedMarksRestoredIff(mails: map<nat, Mail>, items: seq<Item>, applying: seq<Fate>, undoing: seq<Fate>, id: nat)
    requires |applying| == |items| == |undoing| && id in mails
    requires OnlyMarks(items, id) && AllDone(items, AppliedAll(mails, items, applying).1, id)
    requires forall k :: 0 <= k < |items| && items[k].message.id == id ==> !undoing[k].Refused?
    ensures LabelsOf(RoundTrip(mails, items, applying, undoing).0, id) == LabelsOf(mails, id) <==>
      LastButOneReturns(items, id, "UNREAD", "UNREAD" in LabelsOf(mails, id)) && LastButOneReturns(items, id, "STARRED", "STARRED" in LabelsOf(mails, id))
  {
    hide RoundTrip, AppliedAll, LabelReturns, LabelsOf, AllDone, LastButOneReturns;
    RestoredIff(mails, items, applying, undoing, id);
    forall name
      ensures LabelReturns(mails, items, applying, undoing, id, name) <==> LastButOneReturns(items, id, name, name in LabelsOf(mails, id))
      ensures name != "UNREAD" && name != "STARRED" ==> LastButOneReturns(items, id, name, name in LabelsOf(mails, id))
    {
      MarkedLabelReturnsIff(mails, items, applying, undoing, id, name);
      OtherLabelsUnmarked(items, id, name, name in LabelsOf(mails, id));
    }
  }

  lemma OtherLabelsUnmarked(items: seq<Item>, id: nat, name: string, was: bool)
    ensures name != "UNREAD" && name != "STARRED" ==> LastButOneReturns(items, id, name, was)
  {
  }
}
