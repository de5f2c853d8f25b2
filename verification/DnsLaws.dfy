/** Applying a plan brings the zone in line for good, and on the way no required name is left without its record. */
module DnsLaws {
  import opened Orders
  import opened PriorityQueue
  import opened Requests
  import opened DnsPlan
  import opened DnsExecution

  /** `current` is the provider's listing of the zone. */
  ghost predicate Lists(current: seq<ProviderRecord>, zone: map<nat, DnsValue>) {
    && (forall i, j :: 0 <= i < j < |current| ==> current[i].id != current[j].id)
    && (forall r :: r in current <==> r.id in zone && zone[r.id] == r.data)
  }

  /** Names are absolute already, as the provider clients and the requirements deliver them. */
  ghost predicate NamesNormal(naming: Naming, required: seq<DnsValue>, current: seq<ProviderRecord>) {
    && (forall w :: w in required ==> naming.absolute(w.name) == w.name)
    && (forall r :: r in current ==> naming.absolute(r.data.name) == r.data.name)
  }

  ghost predicate DistinctKeys(naming: Naming, current: seq<ProviderRecord>) {
    forall a, b :: a in current && b in current && SameValue(naming, a.data, b.data) ==> a == b
  }

  ghost predicate DistinctRequired(naming: Naming, required: seq<DnsValue>) {
    forall i, j :: 0 <= i < j < |required| ==> !SameValue(naming, required[i], required[j])
  }

  // What the matching loop decides.

  ghost predicate TouchedBy(changes: seq<Change>, id: nat) {
    exists c :: c in changes && Touches(c, id)
  }

  ghost predicate WrittenBy(changes: seq<Change>, want: DnsValue) {
    exists c :: c in changes && c.next == Some(want)
  }

  ghost predicate KeptFor(naming: Naming, relevant: seq<ProviderRecord>, m: Matching, want: DnsValue) {
    exists r :: r in relevant && r.id in m.used && SameValue(naming, r.data, want) && !TouchedBy(m.changes, r.id)
  }

  ghost predicate DistinctIds(records: seq<ProviderRecord>) {
    forall i, j :: 0 <= i < j < |records| ==> records[i].id != records[j].id
  }

  lemma SameIdSameRecord(records: seq<ProviderRecord>, a: ProviderRecord, b: ProviderRecord)
    requires DistinctIds(records) && a in records && b in records && a.id == b.id
    ensures a == b
  {
  }

  /** Changes of the loop write required values, once each, and touch only records marked as used. */
  ghost predicate ChangesFit(naming: Naming, relevant: seq<ProviderRecord>, owned: set<RecordKey>, required: seq<DnsValue>, m: Matching) {
    && (forall c :: c in m.changes ==>
         && c.next.Some? && c.next.value in required
         && ((c.action == Create && c.record.None? && c.owned)
             || (c.action == Update && c.record.Some? && c.record.value in relevant && c.record.value.id in m.used
                 && IsSlot(naming, c.next.value, c.record.value) && c.owned == (KeyOf(naming, c.record.value.data) in owned))))
    && TouchOnce(m.changes)
  }

  /** Every required value is kept or written, and a used record is kept for one or touched. */
  ghost predicate Served(naming: Naming, relevant: seq<ProviderRecord>, required: seq<DnsValue>, m: Matching) {
    && (forall w :: w in required ==> KeptFor(naming, relevant, m, w) || WrittenBy(m.changes, w))
    && (forall r :: r in relevant && r.id in m.used ==> TouchedBy(m.changes, r.id) || exists w :: w in required && SameValue(naming, r.data, w))
  }

  lemma {:induction false} ChangesFitAll(naming: Naming, relevant: seq<ProviderRecord>, owned: set<RecordKey>, required: seq<DnsValue>)
    ensures ChangesFit(naming, relevant, owned, required, MatchAll(naming, relevant, owned, required))
  {
    if required != [] {
      var n := |required| - 1;
      ChangesFitAll(naming, relevant, owned, required[..n]);
      var before, after := MatchAll(naming, relevant, owned, required[..n]), MatchAll(naming, relevant, owned, required);
      assert forall w :: w in required[..n] ==> w in required;
      assert required[n] in required;
      assert forall c :: c in after.changes ==> c in before.changes || c == after.changes[|after.changes| - 1];
      assert forall i :: 0 <= i < |before.changes| ==> before.changes[i] in before.changes;
    }
  }

  lemma KeptForLater(naming: Naming, relevant: seq<ProviderRecord>, owned: set<RecordKey>, required: seq<DnsValue>, m: Matching,
                     want: DnsValue, w: DnsValue)
    requires ChangesFit(naming, relevant, owned, required, m) && KeptFor(naming, relevant, m, w)
    ensures KeptFor(naming, relevant, MatchOne(naming, relevant, owned, m, want), w)
  {
    var r :| r in relevant && r.id in m.used && SameValue(naming, r.data, w) && !TouchedBy(m.changes, r.id);
    var after := MatchOne(naming, relevant, owned, m, want);
    assert r.id in after.used && !TouchedBy(after.changes, r.id);
  }

  lemma ServedStep(naming: Naming, relevant: seq<ProviderRecord>, owned: set<RecordKey>, required: seq<DnsValue>, m: Matching, want: DnsValue)
    requires DistinctIds(relevant) && ChangesFit(naming, relevant, owned, required, m) && Served(naming, relevant, required, m)
    ensures Served(naming, relevant, required + [want], MatchOne(naming, relevant, owned, m, want))
  {
    var after := MatchOne(naming, relevant, owned, m, want);
    forall w | w in required + [want]
      ensures KeptFor(naming, relevant, after, w) || WrittenBy(after.changes, w)
    {
      if w in required {
        if KeptFor(naming, relevant, m, w) {
          KeptForLater(naming, relevant, owned, required, m, want, w);
        } else {
          var c :| c in m.changes && c.next == Some(w);
          assert c in after.changes;
        }
      } else if FindExact(naming, relevant, m.used, want).Some? {
        var exact := FindExact(naming, relevant, m.used, want).value;
        assert !TouchedBy(after.changes, exact.id);
      } else {
        assert after.changes[|after.changes| - 1] in after.changes;
      }
    }
    forall r | r in relevant && r.id in after.used
      ensures TouchedBy(after.changes, r.id) || exists w :: w in required + [want] && SameValue(naming, r.data, w)
    {
      if r.id in m.used {
        if TouchedBy(m.changes, r.id) {
          var c :| c in m.changes && Touches(c, r.id);
          assert c in after.changes;
        } else {
          var w :| w in required && SameValue(naming, r.data, w);
          assert w in required + [want];
        }
      } else if FindExact(naming, relevant, m.used, want).Some? {
        SameIdSameRecord(relevant, r, FindExact(naming, relevant, m.used, want).value);
        assert want in required + [want];
      } else {
        assert Touches(after.changes[|after.changes| - 1], r.id);
      }
    }
  }

  lemma {:induction false} ServedAll(naming: Naming, relevant: seq<ProviderRecord>, owned: set<RecordKey>, required: seq<DnsValue>)
    requires DistinctIds(relevant)
    ensures Served(naming, relevant, required, MatchAll(naming, relevant, owned, required))
  {
    hide MatchOne;
    if required != [] {
      var n := |required| - 1;
      ServedAll(naming, relevant, owned, required[..n]);
      ChangesFitAll(naming, relevant, owned, required[..n]);
      ServedStep(naming, relevant, owned, required[..n], MatchAll(naming, relevant, owned, required[..n]), required[n]);
      assert required == required[..n] + [required[n]];
    }
  }

  /** A value is only written when no record keeps it any more, and only once. */
  ghost predicate WritesFresh(naming: Naming, relevant: seq<ProviderRecord>, m: Matching) {
    && (forall i, j :: 0 <= i < j < |m.changes| && m.changes[i].next.Some? && m.changes[j].next.Some? ==>
         !SameValue(naming, m.changes[i].next.value, m.changes[j].next.value))
    && (forall j, r {:trigger m.changes[j], r in relevant} ::
         0 <= j < |m.changes| && m.changes[j].next.Some? && r in relevant && SameValue(naming, r.data, m.changes[j].next.value) ==>
           TouchedBy(m.changes[..j], r.id))
  }

  /** When a value must be written, a record that has it already is one the loop has changed. */
  lemma HolderIsTouched(naming: Naming, relevant: seq<ProviderRecord>, required: seq<DnsValue>, m: Matching, want: DnsValue, r: ProviderRecord)
    requires Served(naming, relevant, required, m) && FindExact(naming, relevant, m.used, want).None?
    requires (forall w :: w in required ==> !SameValue(naming, w, want)) && r in relevant && SameValue(naming, r.data, want)
    ensures TouchedBy(m.changes, r.id)
  {
    assert r.id in m.used;
    assert forall w :: w in required ==> !SameValue(naming, r.data, w);
  }

  lemma WritesFreshStep(naming: Naming, relevant: seq<ProviderRecord>, owned: set<RecordKey>, required: seq<DnsValue>, m: Matching, want: DnsValue)
    requires ChangesFit(naming, relevant, owned, required, m) && Served(naming, relevant, required, m) && WritesFresh(naming, relevant, m)
    requires forall w :: w in required ==> !SameValue(naming, w, want)
    ensures WritesFresh(naming, relevant, MatchOne(naming, relevant, owned, m, want))
  {
    hide Served, TouchedBy, IsSlot, KeyOf;
    var after := MatchOne(naming, relevant, owned, m, want);
    assert forall i :: 0 <= i < |m.changes| ==> m.changes[i] in m.changes && after.changes[i] == m.changes[i];
    forall j, r | 0 <= j < |after.changes| && after.changes[j].next.Some? && r in relevant
        && SameValue(naming, r.data, after.changes[j].next.value)
      ensures TouchedBy(after.changes[..j], r.id)
    {
      if j < |m.changes| {
        assert after.changes[..j] == m.changes[..j];
      } else {
        HolderIsTouched(naming, relevant, required, m, want, r);
        assert after.changes[..j] == m.changes;
      }
    }
  }

  lemma {:induction false} WritesFreshAll(naming: Naming, relevant: seq<ProviderRecord>, owned: set<RecordKey>, required: seq<DnsValue>)
    requires DistinctIds(relevant) && DistinctRequired(naming, required)
    ensures WritesFresh(naming, relevant, MatchAll(naming, relevant, owned, required))
  {
    hide MatchOne;
    if required != [] {
      var n := |required| - 1;
      WritesFreshAll(naming, relevant, owned, required[..n]);
      ServedAll(naming, relevant, owned, required[..n]);
      ChangesFitAll(naming, relevant, owned, required[..n]);
      WritesFreshStep(naming, relevant, owned, required[..n], MatchAll(naming, relevant, owned, required[..n]), required[n]);
    }
  }

  // The plan as a whole.

  lemma {:induction false} RelevantDistinct(naming: Naming, required: seq<DnsValue>, owned: set<RecordKey>, current: seq<ProviderRecord>)
    requires DistinctIds(current)
    ensures DistinctIds(Relevant(naming, required, owned, current))
  {
    if current != [] {
      RelevantDistinct(naming, required, owned, current[1..]);
      var rest := Relevant(naming, required, owned, current[1..]);
      forall i | 0 <= i < |rest|
        ensures rest[i].id != current[0].id
      {
        assert rest[i] in current[1..];
        var j :| 0 <= j < |current[1..]| && current[1..][j] == rest[i];
        assert current[j + 1] == rest[i];
      }
    }
  }

  lemma TouchOnceSum(a: seq<Change>, b: seq<Change>)
    requires TouchOnce(a) && TouchOnce(b)
    requires forall c, d :: c in a && d in b && c.record.Some? && d.record.Some? ==> c.record.value.id != d.record.value.id
    ensures TouchOnce(a + b)
  {
    var all := a + b;
    forall i, j | 0 <= i < j < |all| && all[i].record.Some? && all[j].record.Some?
      ensures all[i].record.value.id != all[j].record.value.id
    {
      if j < |a| {
        assert all[i] == a[i] && all[j] == a[j];
      } else if i < |a| {
        assert all[i] in a && all[j] == b[j - |a|] && all[j] in b;
      } else {
        assert all[i] == b[i - |a|] && all[j] == b[j - |a|];
      }
    }
  }

  lemma {:induction false} DeletionsDistinct(naming: Naming, required: seq<DnsValue>, owned: set<RecordKey>, used: set<nat>, relevant: seq<ProviderRecord>)
    requires DistinctIds(relevant)
    ensures TouchOnce(Deletions(naming, required, owned, used, relevant))
  {
    hide IsSurplus;
    if relevant != [] {
      DeletionsDistinct(naming, required, owned, used, relevant[1..]);
      var rest := Deletions(naming, required, owned, used, relevant[1..]);
      var first := Change(Delete, Some(relevant[0]), None, KeyOf(naming, relevant[0].data) in owned);
      forall d | d in rest
        ensures d.record.Some? && d.record.value.id != relevant[0].id
      {
        var j :| 0 <= j < |relevant[1..]| && relevant[1..][j] == d.record.value;
        assert relevant[j + 1] == d.record.value;
      }
      TouchOnceSum([first], rest);
    }
  }

  /** The changes of a plan can be applied in order: none depends on another. */
  lemma PlanOrderly(naming: Naming, required: seq<DnsValue>, current: seq<ProviderRecord>, owned: set<RecordKey>, nextId: nat)
    requires DistinctIds(current) && forall r :: r in current ==> r.id < nextId
    ensures Orderly(PlanChanges(naming, required, current, owned).changes, nextId)
  {
    hide MatchAll, Deletions, Relevant, IsSurplus, IsSlot;
    var relevant := Relevant(naming, required, owned, current);
    var m := MatchAll(naming, relevant, owned, required);
    var d := Deletions(naming, required, owned, m.used, relevant);
    RelevantDistinct(naming, required, owned, current);
    ChangesFitAll(naming, relevant, owned, required);
    DeletionsDistinct(naming, required, owned, m.used, relevant);
    forall c, e | c in m.changes && e in d && c.record.Some?
      ensures e.record.Some? && c.record.value.id != e.record.value.id
    {
      SurplusUnused(naming, required, owned, m.used, e.record.value);
    }
    TouchOnceSum(m.changes, d);
    var all := m.changes + d;
    assert PlanChanges(naming, required, current, owned).changes == all;
    forall c | c in all
      ensures (c.action == Create <==> c.record.None?) && (c.action != Delete ==> c.next.Some?) && (c.record.Some? ==> c.record.value.id < nextId)
    {
      assert c in m.changes || c in d;
    }
  }

  lemma SurplusUnused(naming: Naming, required: seq<DnsValue>, owned: set<RecordKey>, used: set<nat>, r: ProviderRecord)
    requires IsSurplus(naming, required, owned, used, r)
    ensures r.id !in used
  {
  }

  // Convergence.

  /** The situation in which a plan is made: the listing is the zone, its keys and the required ones are distinct. */
  ghost predicate Planned(naming: Naming, required: seq<DnsValue>, current: seq<ProviderRecord>, world: World) {
    && Lists(current, world.zone) && (forall k :: k in world.zone ==> k < world.nextId)
    && NamesNormal(naming, required, current)
    && DistinctKeys(naming, current) && DistinctRequired(naming, required)
  }

  ghost function ChangesOf(naming: Naming, required: seq<DnsValue>, current: seq<ProviderRecord>, world: World): seq<Change> {
    PlanChanges(naming, required, current, world.ledger).changes
  }

  ghost function After(naming: Naming, required: seq<DnsValue>, current: seq<ProviderRecord>, world: World): World {
    AppliedAll(naming, world, ChangesOf(naming, required, current, world))
  }

  lemma PlannedOrderly(naming: Naming, required: seq<DnsValue>, current: seq<ProviderRecord>, world: World)
    requires Planned(naming, required, current, world)
    ensures DistinctIds(current) && Orderly(ChangesOf(naming, required, current, world), world.nextId)
  {
    PlanOrderly(naming, required, current, world.ledger, world.nextId);
  }

  /** Which records the deletions spare. */
  lemma DeletesSpareUsed(naming: Naming, required: seq<DnsValue>, current: seq<ProviderRecord>, owned: set<RecordKey>, id: nat)
    requires var relevant := Relevant(naming, required, owned, current);
      id in MatchAll(naming, relevant, owned, required).used && !TouchedBy(MatchAll(naming, relevant, owned, required).changes, id)
    ensures forall c :: c in PlanChanges(naming, required, current, owned).changes ==> !Touches(c, id)
  {
    hide MatchAll, Deletions, Relevant;
    var relevant := Relevant(naming, required, owned, current);
    var m := MatchAll(naming, relevant, owned, required);
    var d := Deletions(naming, required, owned, m.used, relevant);
    forall c | c in m.changes + d
      ensures !Touches(c, id)
    {
      if c in d { SurplusUnused(naming, required, owned, m.used, c.record.value); }
    }
  }

  /** After all changes every required value is in the zone. */
  lemma RequiredPresent(naming: Naming, required: seq<DnsValue>, current: seq<ProviderRecord>, world: World, w: DnsValue) returns (id: nat)
    requires Planned(naming, required, current, world) && w in required
    ensures var zone := After(naming, required, current, world).zone; id in zone && SameValue(naming, zone[id], w)
  {
    hide MatchAll, Deletions, Relevant, AppliedAll, SameValue, DistinctRequired, IsSurplus;
    var relevant := Relevant(naming, required, world.ledger, current);
    var m := MatchAll(naming, relevant, world.ledger, required);
    var changes := ChangesOf(naming, required, current, world);
    PlannedOrderly(naming, required, current, world);
    RelevantDistinct(naming, required, world.ledger, current);
    ServedAll(naming, relevant, world.ledger, required);
    ChangesFitAll(naming, relevant, world.ledger, required);
    if KeptFor(naming, relevant, m, w) {
      var r :| r in relevant && r.id in m.used && SameValue(naming, r.data, w) && !TouchedBy(m.changes, r.id);
      id := r.id;
      DeletesSpareUsed(naming, required, current, world.ledger, id);
      assert r in current;
      UntouchedStays(naming, world, changes, id);
    } else {
      var c :| c in m.changes && c.next == Some(w);
      assert c in changes;
      SameAsItself(naming, w);
      if c.action == Update {
        id := c.record.value.id;
        TouchedChanges(naming, world, changes, c);
      } else {
        id := CreatedStays(naming, world, changes, c);
      }
    }
  }

  lemma SameAsItself(naming: Naming, w: DnsValue)
    ensures SameValue(naming, w, w)
  {
  }

  ghost predicate Wanted(naming: Naming, required: seq<DnsValue>, data: DnsValue) {
    exists w :: w in required && SameValue(naming, data, w)
  }

  /** A record the plan neither needs nor minds. */
  ghost predicate Harmless(naming: Naming, required: seq<DnsValue>, owned: set<RecordKey>, r: ProviderRecord) {
    IsRelevant(naming, required, owned, r) ==> KeyOf(naming, r.data) !in owned && !Conflicts(naming, required, r)
  }

  lemma InFirst<T>(a: seq<T>, b: seq<T>, j: nat)
    requires j < |a + b| && (a + b)[j] !in b
    ensures j < |a|
  {
    assert forall k :: 0 <= k < |b| ==> (a + b)[|a| + k] == b[k];
  }

  /** The writes of a plan are those of the matching loop. */
  lemma WritesFromMatching(naming: Naming, required: seq<DnsValue>, current: seq<ProviderRecord>, owned: set<RecordKey>, j: nat)
    requires var changes := PlanChanges(naming, required, current, owned).changes; j < |changes| && changes[j].action != Delete
    ensures var m := MatchAll(naming, Relevant(naming, required, owned, current), owned, required);
      j < |m.changes| && PlanChanges(naming, required, current, owned).changes[j] == m.changes[j] && m.changes[j] in m.changes
    ensures var c := PlanChanges(naming, required, current, owned).changes[j]; c.next.Some? && c.next.value in required
  {
    hide MatchAll, Deletions, Relevant, IsSlot, IsSurplus;
    var relevant := Relevant(naming, required, owned, current);
    var m := MatchAll(naming, relevant, owned, required);
    var d := Deletions(naming, required, owned, m.used, relevant);
    ChangesFitAll(naming, relevant, owned, required);
    assert (m.changes + d)[j] !in d;
    InFirst(m.changes, d, j);
    assert m.changes[j] in m.changes;
  }

  /** An old record that no change touches is kept for a required value or is harmless. */
  lemma UntouchedHarmless(naming: Naming, required: seq<DnsValue>, current: seq<ProviderRecord>, owned: set<RecordKey>, r: ProviderRecord)
    requires DistinctIds(current) && r in current
    requires forall c :: c in PlanChanges(naming, required, current, owned).changes ==> !Touches(c, r.id)
    ensures Wanted(naming, required, r.data) || Harmless(naming, required, owned, r)
  {
    hide MatchAll, Deletions, Relevant, SameValue, IsRelevant, Conflicts;
    var relevant := Relevant(naming, required, owned, current);
    var m := MatchAll(naming, relevant, owned, required);
    var d := Deletions(naming, required, owned, m.used, relevant);
    RelevantDistinct(naming, required, owned, current);
    ServedAll(naming, relevant, owned, required);
    assert forall c :: c in m.changes || c in d ==> c in m.changes + d;
    var deletion := Change(Delete, Some(r), None, KeyOf(naming, r.data) in owned);
    assert Touches(deletion, r.id) && deletion !in d;
    assert r in relevant ==> !IsSurplus(naming, required, owned, m.used, r);
    assert !TouchedBy(m.changes, r.id);
  }

  /** Every record of the resulting zone has a required value, or was there before and is harmless. */
  lemma ResultRecords(naming: Naming, required: seq<DnsValue>, current: seq<ProviderRecord>, world: World, id: nat)
    requires Planned(naming, required, current, world) && id in After(naming, required, current, world).zone
    ensures var data := After(naming, required, current, world).zone[id];
      && naming.absolute(data.name) == data.name
      && (Wanted(naming, required, data)
          || (ProviderRecord(id, data) in current && Harmless(naming, required, world.ledger, ProviderRecord(id, data))))
  {
    hide PlanChanges, AppliedAll, SameValue, Harmless, DistinctKeys, DistinctRequired;
    var changes := ChangesOf(naming, required, current, world);
    var data := After(naming, required, current, world).zone[id];
    PlannedOrderly(naming, required, current, world);
    var j := Origin(naming, world, changes, id);
    if WrittenAt(changes, j, world.nextId, id, data) {
      WritesFromMatching(naming, required, current, world.ledger, j);
      SameAsItself(naming, data);
    } else {
      UntouchedHarmless(naming, required, current, world.ledger, ProviderRecord(id, data));
    }
  }

  /** A record that was there before and untouched does not have a value the plan writes. */
  lemma WrittenNotKept(naming: Naming, required: seq<DnsValue>, current: seq<ProviderRecord>, world: World, r: ProviderRecord, j: nat)
    requires Planned(naming, required, current, world) && r in current
    requires var changes := ChangesOf(naming, required, current, world);
      && (forall c :: c in changes ==> !Touches(c, r.id))
      && j < |changes| && changes[j].action != Delete && changes[j].next.Some?
    ensures !SameValue(naming, r.data, ChangesOf(naming, required, current, world)[j].next.value)
  {
    hide MatchAll, Deletions, Relevant, Conflicts;
    var relevant := Relevant(naming, required, world.ledger, current);
    var m := MatchAll(naming, relevant, world.ledger, required);
    PlannedOrderly(naming, required, current, world);
    RelevantDistinct(naming, required, world.ledger, current);
    WritesFreshAll(naming, relevant, world.ledger, required);
    WritesFromMatching(naming, required, current, world.ledger, j);
    var c := m.changes[j];
    assert forall e :: e in m.changes ==> e in ChangesOf(naming, required, current, world);
    assert !TouchedBy(m.changes[..j], r.id);
    assert r in relevant ==> !SameValue(naming, r.data, c.next.value);
    assert SameValue(naming, r.data, c.next.value) ==> r.data.name in RequiredNames(naming, required);
  }

  lemma WrittenOnce(naming: Naming, required: seq<DnsValue>, current: seq<ProviderRecord>, world: World, i: nat, j: nat)
    requires Planned(naming, required, current, world)
    requires var changes := ChangesOf(naming, required, current, world);
      && i < |changes| && j < |changes| && changes[i].action != Delete && changes[j].action != Delete
      && changes[i].next.Some? && changes[j].next.Some? && SameValue(naming, changes[i].next.value, changes[j].next.value)
    ensures i == j
  {
    hide MatchAll, Deletions, Relevant, Conflicts, PlanChanges;
    var relevant := Relevant(naming, required, world.ledger, current);
    PlannedOrderly(naming, required, current, world);
    RelevantDistinct(naming, required, world.ledger, current);
    WritesFreshAll(naming, relevant, world.ledger, required);
    WritesFromMatching(naming, required, current, world.ledger, i);
    WritesFromMatching(naming, required, current, world.ledger, j);
  }

  /** In the resulting zone a required value occurs only once. */
  lemma RequiredOnce(naming: Naming, required: seq<DnsValue>, current: seq<ProviderRecord>, world: World, a: nat, b: nat)
    requires Planned(naming, required, current, world)
    requires var zone := After(naming, required, current, world).zone;
      a in zone && b in zone && Wanted(naming, required, zone[a]) && SameValue(naming, zone[a], zone[b])
    ensures a == b
  {
    hide PlanChanges, AppliedAll, Wanted, DistinctRequired;
    var changes := ChangesOf(naming, required, current, world);
    var zone := After(naming, required, current, world).zone;
    PlannedOrderly(naming, required, current, world);
    var i := Origin(naming, world, changes, a);
    var j := Origin(naming, world, changes, b);
    if WrittenAt(changes, i, world.nextId, a, zone[a]) {
      if WrittenAt(changes, j, world.nextId, b, zone[b]) {
        WrittenOnce(naming, required, current, world, i, j);
      } else {
        WrittenNotKept(naming, required, current, world, ProviderRecord(b, zone[b]), i);
      }
    } else if WrittenAt(changes, j, world.nextId, b, zone[b]) {
      WrittenNotKept(naming, required, current, world, ProviderRecord(a, zone[a]), j);
    } else {
      assert ProviderRecord(a, zone[a]) in current && ProviderRecord(b, zone[b]) in current;
    }
  }

  // Planning again.

  /** Every required value is present once, and everything else is harmless: nothing is left to do. */
  ghost predicate Settled(naming: Naming, required: seq<DnsValue>, owned: set<RecordKey>, current: seq<ProviderRecord>) {
    && DistinctIds(current)
    && (forall w :: w in required ==> exists r :: r in current && SameValue(naming, r.data, w) && r.data.name == naming.absolute(w.name))
    && (forall a, b, w :: a in current && b in current && w in required && SameValue(naming, a.data, w) && SameValue(naming, b.data, w) ==> a == b)
    && (forall r :: r in current ==> Wanted(naming, required, r.data) || Harmless(naming, required, owned, r))
  }

  lemma {:induction false} SettledMatching(naming: Naming, required: seq<DnsValue>, owned: set<RecordKey>, current: seq<ProviderRecord>, n: nat)
    requires Settled(naming, required, owned, current) && DistinctRequired(naming, required) && n <= |required|
    ensures var relevant := Relevant(naming, required, owned, current); var m := MatchAll(naming, relevant, owned, required[..n]);
      && m.changes == [] && m.inSync == n
      && (forall r :: r in relevant ==> (r.id in m.used <==> Wanted(naming, required[..n], r.data)))
  {
    hide Harmless, IsRelevant, SameValue;
    if n > 0 {
      SettledMatching(naming, required, owned, current, n - 1);
      assert required[..n][..n - 1] == required[..n - 1];
      SettledStep(naming, required, owned, current, n - 1, MatchAll(naming, Relevant(naming, required, owned, current), owned, required[..n - 1]));
    }
  }

  /** The next required value still finds its record. */
  lemma SettledFinds(naming: Naming, required: seq<DnsValue>, owned: set<RecordKey>, current: seq<ProviderRecord>, n: nat, used: set<nat>)
    requires Settled(naming, required, owned, current) && DistinctRequired(naming, required) && n < |required|
    requires forall r :: r in Relevant(naming, required, owned, current) && r.id in used ==> Wanted(naming, required[..n], r.data)
    ensures FindExact(naming, Relevant(naming, required, owned, current), used, required[n]).Some?
  {
    hide Harmless, Conflicts, FindExact, Relevant;
    var w := required[n];
    assert w in required;
    var r :| r in current && SameValue(naming, r.data, w) && r.data.name == naming.absolute(w.name);
    assert r in Relevant(naming, required, owned, current);
    forall x | x in required[..n]
      ensures !SameValue(naming, r.data, x)
    {
      var i :| 0 <= i < n && required[i] == x;
      assert !SameValue(naming, required[i], required[n]);
    }
  }

  lemma SettledStep(naming: Naming, required: seq<DnsValue>, owned: set<RecordKey>, current: seq<ProviderRecord>, n: nat, m: Matching)
    requires Settled(naming, required, owned, current) && DistinctRequired(naming, required) && n < |required|
    requires forall r :: r in Relevant(naming, required, owned, current) ==> (r.id in m.used <==> Wanted(naming, required[..n], r.data))
    ensures var relevant := Relevant(naming, required, owned, current); var after := MatchOne(naming, relevant, owned, m, required[n]);
      && after.changes == m.changes && after.inSync == m.inSync + 1
      && (forall r :: r in relevant ==> (r.id in after.used <==> Wanted(naming, required[..n + 1], r.data)))
  {
    hide Harmless, Conflicts, FindExact, Relevant, SameValue, DistinctRequired, IsRelevant, FindSlot, IsSlot;
    var relevant := Relevant(naming, required, owned, current);
    var w := required[n];
    SettledFinds(naming, required, owned, current, n, m.used);
    var exact := FindExact(naming, relevant, m.used, w).value;
    assert w in required && forall v :: v in required[..n + 1] <==> v in required[..n] || v == w;
    forall x | x in relevant
      ensures x.id in m.used + {exact.id} <==> Wanted(naming, required[..n + 1], x.data)
    {
      if x.id == exact.id { SameIdSameRecord(current, x, exact); }
      if SameValue(naming, x.data, w) { assert x == exact; }
    }
  }

  /** Nothing is left to do in a settled zone, and every required record counts as in sync. */
  lemma SettledPlan(naming: Naming, required: seq<DnsValue>, owned: set<RecordKey>, current: seq<ProviderRecord>)
    requires Settled(naming, required, owned, current) && DistinctRequired(naming, required)
    ensures PlanChanges(naming, required, current, owned) == Plan([], |required|)
  {
    hide Relevant, MatchAll, SameValue, DistinctRequired, IsRelevant, Conflicts;
    SettledMatching(naming, required, owned, current, |required|);
    assert required[..|required|] == required;
    var relevant := Relevant(naming, required, owned, current);
    var m := MatchAll(naming, relevant, owned, required);
    var d := Deletions(naming, required, owned, m.used, relevant);
    forall r | r in relevant
      ensures !IsSurplus(naming, required, owned, m.used, r)
    {
      assert r in current && (Wanted(naming, required, r.data) || Harmless(naming, required, owned, r));
      assert IsRelevant(naming, required, owned, r);
    }
    HasElement(d);
  }

  lemma HarmlessLater(naming: Naming, required: seq<DnsValue>, current: seq<ProviderRecord>, world: World, r: ProviderRecord)
    requires Harmless(naming, required, world.ledger, r) && !Wanted(naming, required, r.data)
    ensures Harmless(naming, required, After(naming, required, current, world).ledger, r)
  {
    hide PlanChanges, AppliedAll, Conflicts;
    var changes := ChangesOf(naming, required, current, world);
    var key := KeyOf(naming, r.data);
    if key in After(naming, required, current, world).ledger && key !in world.ledger {
      LedgerGains(naming, world, changes, key);
      var c :| c in changes && c.next.Some? && c.action != Delete && KeyOf(naming, c.next.value) == key;
      var j :| 0 <= j < |changes| && changes[j] == c;
      WritesFromMatching(naming, required, current, world.ledger, j);
    }
  }

  lemma ResultSettled(naming: Naming, required: seq<DnsValue>, current: seq<ProviderRecord>, world: World, again: seq<ProviderRecord>)
    requires Planned(naming, required, current, world) && Lists(again, After(naming, required, current, world).zone)
    ensures Settled(naming, required, After(naming, required, current, world).ledger, again)
  {
    hide PlanChanges, AppliedAll, Harmless, DistinctKeys, DistinctRequired;
    var after := After(naming, required, current, world);
    forall w | w in required
      ensures exists r :: r in again && SameValue(naming, r.data, w) && r.data.name == naming.absolute(w.name)
    {
      var id := RequiredPresent(naming, required, current, world, w);
      ResultRecords(naming, required, current, world, id);
      assert ProviderRecord(id, after.zone[id]) in again;
    }
    forall a, b, w | a in again && b in again && w in required && SameValue(naming, a.data, w) && SameValue(naming, b.data, w)
      ensures a == b
    {
      assert Wanted(naming, required, a.data);
      RequiredOnce(naming, required, current, world, a.id, b.id);
    }
    forall r | r in again
      ensures Wanted(naming, required, r.data) || Harmless(naming, required, after.ledger, r)
    {
      ResultRecords(naming, required, current, world, r.id);
      if !Wanted(naming, required, r.data) { HarmlessLater(naming, required, current, world, r); }
    }
  }

  /** Applying every change of a plan makes the zone hold every required record, and planning again, from any
      listing of the new zone and the updated ledger, finds nothing to do and everything in sync. */
  lemma ApplyingConverges(naming: Naming, required: seq<DnsValue>, current: seq<ProviderRecord>, world: World, again: seq<ProviderRecord>)
    requires Planned(naming, required, current, world) && Lists(again, After(naming, required, current, world).zone)
    ensures forall w :: w in required ==> exists r :: r in again && SameValue(naming, r.data, w)
    ensures PlanChanges(naming, required, again, After(naming, required, current, world).ledger) == Plan([], |required|)
  {
    hide PlanChanges, AppliedAll, After, DistinctKeys;
    ResultSettled(naming, required, current, world, again);
    SettledPlan(naming, required, After(naming, required, current, world).ledger, again);
  }

  /** In terms of the executor: select every change, let every answer arrive, and planning again finds nothing to do. */
  lemma ExecutionConverges(naming: Naming, required: seq<DnsValue>, current: seq<ProviderRecord>, world: World, selected: set<Change>,
                           fates: seq<Fate>, again: seq<ProviderRecord>)
    requires Planned(naming, required, current, world) && |fates| == |ChangesOf(naming, required, current, world)|
    requires (forall c :: c in ChangesOf(naming, required, current, world) ==> c in selected) && (forall f :: f in fates ==> f.Answered?)
    requires Lists(again, Executed(naming, world, ChangesOf(naming, required, current, world), selected, fates).zone)
    ensures PlanChanges(naming, required, again, Executed(naming, world, ChangesOf(naming, required, current, world), selected, fates).ledger)
      == Plan([], |required|)
  {
    hide PlanChanges, AppliedAll, Executed, DistinctKeys;
    ExecutedInFull(naming, world, ChangesOf(naming, required, current, world), selected, fates);
    ApplyingConverges(naming, required, current, world, again);
  }

  // The ledger.

  lemma {:induction false} LedgerKeeps(naming: Naming, world: World, changes: seq<Change>, j: nat)
    requires j < |changes| && changes[j].next.Some? && (changes[j].action == Create || (changes[j].action == Update && changes[j].owned && changes[j].record.Some?))
    requires forall k :: j < k < |changes| && changes[k].record.Some? ==> KeyOf(naming, changes[k].record.value.data) != KeyOf(naming, changes[j].next.value)
    ensures KeyOf(naming, changes[j].next.value) in AppliedAll(naming, world, changes).ledger
  {
    var n := |changes| - 1;
    if j < n { LedgerKeeps(naming, world, changes[..n], j); }
  }

  /** Whatever a full application creates, or updates of its own, is in the ledger afterwards: no later change
      of the same plan disowns it. */
  lemma WrittenIsOwned(naming: Naming, required: seq<DnsValue>, current: seq<ProviderRecord>, world: World, j: nat)
    requires Planned(naming, required, current, world)
    requires var changes := ChangesOf(naming, required, current, world); j < |changes| && changes[j].action != Delete && changes[j].owned
    ensures var c := ChangesOf(naming, required, current, world)[j];
      c.next.Some? && KeyOf(naming, c.next.value) in After(naming, required, current, world).ledger
  {
    hide MatchAll, Deletions, Relevant, Conflicts, AppliedAll, IsSlot, IsRelevant;
    var changes := ChangesOf(naming, required, current, world);
    var relevant := Relevant(naming, required, world.ledger, current);
    var m := MatchAll(naming, relevant, world.ledger, required);
    PlannedOrderly(naming, required, current, world);
    RelevantDistinct(naming, required, world.ledger, current);
    WritesFreshAll(naming, relevant, world.ledger, required);
    ChangesFitAll(naming, relevant, world.ledger, required);
    WritesFromMatching(naming, required, current, world.ledger, j);
    assert m.changes[..j] == changes[..j];
    forall k | j < k < |changes| && changes[k].record.Some?
      ensures KeyOf(naming, changes[k].record.value.data) != KeyOf(naming, changes[j].next.value)
    {
      var r := changes[k].record.value;
      assert changes[k] in changes && r in relevant by {
        assert changes[k] in m.changes || changes[k] in Deletions(naming, required, world.ledger, m.used, relevant);
      }
      forall i | 0 <= i < j
        ensures !Touches(changes[..j][i], r.id)
      {
        assert changes[..j][i] == changes[i];
      }
    }
    assert changes[j] in changes;
    LedgerKeeps(naming, world, changes, j);
  }

  /** A key enters the ledger only through a selected create or update of the plan that was answered; a lost answer
      never makes the ledger claim a record. */
  lemma LedgerIsHonest(naming: Naming, world: World, changes: seq<Change>, selected: set<Change>, fates: seq<Fate>, key: RecordKey) returns (i: nat)
    requires |fates| == |changes|
    requires key in Executed(naming, world, changes, selected, fates).ledger && key !in world.ledger
    ensures i < |changes| && changes[i] in selected && fates[i].Answered?
    ensures changes[i].action != Delete && changes[i].next.Some? && KeyOf(naming, changes[i].next.value) == key
  {
    hide Executed, AppliedAll, KeyOf, Confirmed;
    ExecutedLedger(naming, world, changes, selected, fates);
    var confirmed := Confirmed(changes, selected, fates);
    LedgerGains(naming, world, confirmed, key);
    var c :| c in confirmed && c.next.Some? && c.action != Delete && KeyOf(naming, c.next.value) == key;
    i := ConfirmedIndex(changes, selected, fates, c);
  }

  lemma {:induction false} ConfirmedIndex(changes: seq<Change>, selected: set<Change>, fates: seq<Fate>, c: Change) returns (i: nat)
    requires |fates| == |changes| && c in Confirmed(changes, selected, fates)
    ensures i < |changes| && changes[i] == c && c in selected && fates[i].Answered?
  {
    var n := |changes| - 1;
    i := n;
    if c in Confirmed(changes[..n], selected, fates[..n]) {
      i := ConfirmedIndex(changes[..n], selected, fates[..n], c);
    }
  }
}
