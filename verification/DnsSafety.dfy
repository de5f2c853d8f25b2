/** On the way to the planned zone no required name is left without its record, and exactly when it is. */
module DnsSafety {
  import opened PriorityQueue
  import opened Requests
  import opened DnsPlan
  import opened DnsExecution
  import opened DnsLaws

  predicate Has(data: DnsValue, kind: RecordType, name: string) {
    data.kind == kind && data.name == name
  }

  ghost predicate Provides(zone: map<nat, DnsValue>, kind: RecordType, name: string) {
    exists id :: id in zone && Has(zone[id], kind, name)
  }

  /** Some changes of the plan, in an order in which they can be carried out. */
  ghost predicate PartOf(plan: seq<Change>, run: seq<Change>, nextId: nat) {
    Orderly(run, nextId) && forall c :: c in run ==> c in plan
  }

  /** `current` is the listing of the zone, and new ids are new. */
  ghost predicate Stands(current: seq<ProviderRecord>, world: World) {
    Lists(current, world.zone) && forall k :: k in world.zone ==> k < world.nextId
  }

  ghost predicate Sits(naming: Naming, required: seq<DnsValue>, current: seq<ProviderRecord>, world: World) {
    Stands(current, world) && NamesNormal(naming, required, current)
  }

  lemma SlotKeepsName(naming: Naming, want: DnsValue, r: ProviderRecord)
    requires IsSlot(naming, want, r) && naming.absolute(want.name) == want.name
    ensures r.data.kind == want.kind && r.data.name == want.name
  {
  }

  /** An update writes over a listed record of the same type and name. */
  lemma UpdateKeepsName(naming: Naming, required: seq<DnsValue>, current: seq<ProviderRecord>, world: World, c: Change)
    requires Sits(naming, required, current, world) && c in ChangesOf(naming, required, current, world) && c.action == Update
    ensures c.record.Some? && c.next.Some? && c.record.value in current
    ensures c.next.value.kind == c.record.value.data.kind && c.next.value.name == c.record.value.data.name
  {
    hide MatchAll, Deletions, Relevant, IsSlot;
    var changes := ChangesOf(naming, required, current, world);
    var j :| 0 <= j < |changes| && changes[j] == c;
    var relevant := Relevant(naming, required, world.ledger, current);
    WritesFromMatching(naming, required, current, world.ledger, j);
    ChangesFitAll(naming, relevant, world.ledger, required);
    assert c in MatchAll(naming, relevant, world.ledger, required).changes;
    SlotKeepsName(naming, c.next.value, c.record.value);
  }

  ghost predicate NotDeleted(run: seq<Change>, r: ProviderRecord) {
    forall c :: c in run && c.action == Delete ==> !Touches(c, r.id)
  }

  /** A listed record of this type and name that the run does not delete. */
  ghost predicate KeepsOne(current: seq<ProviderRecord>, run: seq<Change>, kind: RecordType, name: string) {
    exists r :: r in current && Has(r.data, kind, name) && NotDeleted(run, r)
  }

  ghost predicate CreatesOne(run: seq<Change>, kind: RecordType, name: string) {
    exists c :: c in run && c.action == Create && c.next.Some? && Has(c.next.value, kind, name)
  }

  /** A record that is not deleted keeps its type and name, whatever else happens. */
  lemma NotDeletedKeepsName(naming: Naming, required: seq<DnsValue>, current: seq<ProviderRecord>, world: World, run: seq<Change>, r: ProviderRecord)
    requires Sits(naming, required, current, world) && PartOf(ChangesOf(naming, required, current, world), run, world.nextId)
    requires r in current && NotDeleted(run, r)
    ensures Provides(AppliedAll(naming, world, run).zone, r.data.kind, r.data.name)
  {
    hide AppliedAll, PlanChanges;
    var zone := AppliedAll(naming, world, run).zone;
    if c :| c in run && Touches(c, r.id) {
      TouchedChanges(naming, world, run, c);
      UpdateKeepsName(naming, required, current, world, c);
      SameIdSameRecord(current, r, c.record.value);
      assert Has(zone[r.id], r.data.kind, r.data.name);
    } else {
      UntouchedStays(naming, world, run, r.id);
      assert Has(zone[r.id], r.data.kind, r.data.name);
    }
  }

  /** Where a record of the resulting zone comes from. */
  lemma ProvidedFrom(naming: Naming, required: seq<DnsValue>, current: seq<ProviderRecord>, world: World, run: seq<Change>, id: nat)
    requires Sits(naming, required, current, world) && PartOf(ChangesOf(naming, required, current, world), run, world.nextId)
    requires id in AppliedAll(naming, world, run).zone
    ensures var data := AppliedAll(naming, world, run).zone[id];
      KeepsOne(current, run, data.kind, data.name) || CreatesOne(run, data.kind, data.name)
  {
    hide AppliedAll, PlanChanges, Creates;
    var data := AppliedAll(naming, world, run).zone[id];
    var j := Origin(naming, world, run, id);
    if WrittenAt(run, j, world.nextId, id, data) {
      var c := run[j];
      assert c in run;
      if c.action == Update {
        UpdateKeepsName(naming, required, current, world, c);
        assert NotDeleted(run, c.record.value);
      }
    } else {
      assert NotDeleted(run, ProviderRecord(id, data));
    }
  }

  /** After any part of a plan has been carried out, a type and name has a record if and only if one it had before was
      not deleted or one was created. */
  lemma ProvidesIff(naming: Naming, required: seq<DnsValue>, current: seq<ProviderRecord>, world: World, run: seq<Change>,
                    kind: RecordType, name: string)
    requires Sits(naming, required, current, world) && PartOf(ChangesOf(naming, required, current, world), run, world.nextId)
    ensures Provides(AppliedAll(naming, world, run).zone, kind, name) <==> KeepsOne(current, run, kind, name) || CreatesOne(run, kind, name)
  {
    hide AppliedAll, PlanChanges, Orderly, NotDeleted;
    var zone := AppliedAll(naming, world, run).zone;
    if Provides(zone, kind, name) {
      var id :| id in zone && Has(zone[id], kind, name);
      ProvidedFrom(naming, required, current, world, run, id);
    }
    if KeepsOne(current, run, kind, name) {
      var r :| r in current && Has(r.data, kind, name) && NotDeleted(run, r);
      NotDeletedKeepsName(naming, required, current, world, run, r);
    }
    if CreatesOne(run, kind, name) {
      var c :| c in run && c.action == Create && c.next.Some? && Has(c.next.value, kind, name);
      var id := CreatedStays(naming, world, run, c);
    }
  }

  // Executions.

  lemma {:induction false} EffectiveMembers(changes: seq<Change>, selected: set<Change>, fates: seq<Fate>, c: Change)
    requires |fates| == |changes|
    ensures c in Effective(changes, selected, fates) <==> exists i :: 0 <= i < |changes| && changes[i] == c && c in selected && !fates[i].Refused?
  {
    if changes != [] {
      var n := |changes| - 1;
      EffectiveMembers(changes[..n], selected, fates[..n], c);
      if i :| 0 <= i < |changes| && changes[i] == c && c in selected && !fates[i].Refused? {
        if i < n { assert changes[..n][i] == c && !fates[..n][i].Refused?; }
      }
    }
  }

  lemma {:induction false} EffectiveOrderly(changes: seq<Change>, selected: set<Change>, fates: seq<Fate>, nextId: nat)
    requires |fates| == |changes| && Orderly(changes, nextId)
    ensures Orderly(Effective(changes, selected, fates), nextId)
  {
    if changes != [] {
      var n := |changes| - 1;
      var front := Effective(changes[..n], selected, fates[..n]);
      OrderlyFront(changes, nextId);
      EffectiveOrderly(changes[..n], selected, fates[..n], nextId);
      forall c | c in front && c.record.Some? && changes[n].record.Some?
        ensures c.record.value.id != changes[n].record.value.id
      {
        EffectiveMembers(changes[..n], selected, fates[..n], c);
        var i :| 0 <= i < n && changes[..n][i] == c;
        assert changes[i] == c;
      }
      TouchOnceSum(front, [changes[n]]);
      assert front + [] == front && changes[n] in changes;
    }
  }

  lemma OrderlyPrefix(plan: seq<Change>, k: nat, nextId: nat)
    requires Orderly(plan, nextId) && k <= |plan|
    ensures Orderly(plan[..k], nextId)
  {
    assert forall c :: c in plan[..k] ==> c in plan;
  }

  /** The changes carried out among the first `k` of the plan. */
  ghost function CarriedOut(plan: seq<Change>, selected: set<Change>, fates: seq<Fate>, k: nat): seq<Change>
    requires |fates| == |plan| && k <= |plan|
  {
    Effective(plan[..k], selected, fates[..k])
  }

  lemma CarriedOutMembers(plan: seq<Change>, selected: set<Change>, fates: seq<Fate>, k: nat, c: Change)
    requires |fates| == |plan| && k <= |plan|
    ensures c in CarriedOut(plan, selected, fates, k) <==> exists i :: 0 <= i < k && plan[i] == c && c in selected && !fates[i].Refused?
  {
    EffectiveMembers(plan[..k], selected, fates[..k], c);
    assert forall i :: 0 <= i < k ==> plan[..k][i] == plan[i] && fates[..k][i] == fates[i];
  }

  lemma CarriedOutIsPart(naming: Naming, required: seq<DnsValue>, current: seq<ProviderRecord>, world: World,
                         selected: set<Change>, fates: seq<Fate>, k: nat)
    requires Stands(current, world)
    requires |fates| == |ChangesOf(naming, required, current, world)| && k <= |fates|
    ensures var plan := ChangesOf(naming, required, current, world); PartOf(plan, CarriedOut(plan, selected, fates, k), world.nextId)
  {
    var plan := ChangesOf(naming, required, current, world);
    PlanOrderly(naming, required, current, world.ledger, world.nextId);
    hide PlanChanges, Effective, TouchOnce, ChangesOf;
    assert Orderly(plan[..k], world.nextId) by { OrderlyPrefix(plan, k, world.nextId); }
    EffectiveOrderly(plan[..k], selected, fates[..k], world.nextId);
    forall c | c in CarriedOut(plan, selected, fates, k)
      ensures c in plan
    {
      CarriedOutMembers(plan, selected, fates, k, c);
    }
  }

  /** At every moment of an execution, with any selection and whatever becomes of the requests, a type and name has a
      record if and only if one it had before has not been deleted or one has been created. */
  lemma ExecutionProvidesIff(naming: Naming, required: seq<DnsValue>, current: seq<ProviderRecord>, world: World,
                             selected: set<Change>, fates: seq<Fate>, k: nat, kind: RecordType, name: string)
    requires Sits(naming, required, current, world)
    requires |fates| == |ChangesOf(naming, required, current, world)| && k <= |fates|
    ensures var plan := ChangesOf(naming, required, current, world);
      var run := CarriedOut(plan, selected, fates, k);
      Provides(Executed(naming, world, plan[..k], selected, fates[..k]).zone, kind, name) <==>
        KeepsOne(current, run, kind, name) || CreatesOne(run, kind, name)
  {
    hide PlanChanges, Executed, AppliedAll, Effective, ChangesOf, KeepsOne, CreatesOne, PartOf;
    var plan := ChangesOf(naming, required, current, world);
    CarriedOutIsPart(naming, required, current, world, selected, fates, k);
    ProvidesIff(naming, required, current, world, CarriedOut(plan, selected, fates, k), kind, name);
    ExecutedZone(naming, world, plan[..k], selected, fates[..k]);
  }

  lemma CreatesBeforeDeletes(naming: Naming, required: seq<DnsValue>, current: seq<ProviderRecord>, owned: set<RecordKey>, j: nat, i: nat)
    requires var plan := PlanChanges(naming, required, current, owned).changes;
      j < |plan| && i < |plan| && plan[j].action == Create && plan[i].action == Delete
    ensures j < i
  {
    hide MatchAll, Deletions, Relevant, IsSurplus;
    var relevant := Relevant(naming, required, owned, current);
    var m := MatchAll(naming, relevant, owned, required);
    WritesFromMatching(naming, required, current, owned, j);
    MatchingHasNoDeletes(naming, relevant, owned, required);
    assert forall k :: 0 <= k < |m.changes| ==> PlanChanges(naming, required, current, owned).changes[k] == m.changes[k] && m.changes[k] in m.changes;
  }

  /** No delete has been carried out before the last create. */
  lemma NothingDeletedYet(naming: Naming, required: seq<DnsValue>, current: seq<ProviderRecord>, world: World,
                          selected: set<Change>, fates: seq<Fate>, k: nat, i: nat)
    requires |fates| == |ChangesOf(naming, required, current, world)| && k <= i < |fates|
    requires ChangesOf(naming, required, current, world)[i].action == Create
    ensures forall c :: c in CarriedOut(ChangesOf(naming, required, current, world), selected, fates, k) ==> c.action != Delete
  {
    hide PlanChanges, Effective;
    var plan := ChangesOf(naming, required, current, world);
    forall c | c in CarriedOut(plan, selected, fates, k)
      ensures c.action != Delete
    {
      CarriedOutMembers(plan, selected, fates, k, c);
      var j :| 0 <= j < k && plan[j] == c;
      if c.action == Delete { CreatesBeforeDeletes(naming, required, current, world.ledger, i, j); }
    }
  }

  lemma CarriedOutGrows(plan: seq<Change>, selected: set<Change>, fates: seq<Fate>, k: nat, n: nat)
    requires |fates| == |plan| && k <= n <= |plan|
    ensures forall c :: c in CarriedOut(plan, selected, fates, k) ==> c in CarriedOut(plan, selected, fates, n)
  {
    hide CarriedOut;
    forall c | c in CarriedOut(plan, selected, fates, k)
      ensures c in CarriedOut(plan, selected, fates, n)
    {
      CarriedOutMembers(plan, selected, fates, k, c);
      CarriedOutMembers(plan, selected, fates, n, c);
    }
  }

  lemma KeptAllAlong(current: seq<ProviderRecord>, plan: seq<Change>, selected: set<Change>, fates: seq<Fate>, k: nat,
                     kind: RecordType, name: string)
    requires |fates| == |plan| && k <= |plan| && KeepsOne(current, CarriedOut(plan, selected, fates, |plan|), kind, name)
    ensures KeepsOne(current, CarriedOut(plan, selected, fates, k), kind, name)
  {
    hide CarriedOut;
    CarriedOutGrows(plan, selected, fates, k, |plan|);
    var r :| r in current && Has(r.data, kind, name) && NotDeleted(CarriedOut(plan, selected, fates, |plan|), r);
    assert NotDeleted(CarriedOut(plan, selected, fates, k), r);
  }

  ghost predicate ProvidesThroughout(naming: Naming, world: World, plan: seq<Change>, selected: set<Change>, fates: seq<Fate>,
                                     kind: RecordType, name: string)
    requires |fates| == |plan|
  {
    forall k :: 0 <= k <= |plan| ==> Provides(Executed(naming, world, plan[..k], selected, fates[..k]).zone, kind, name)
  }

  /** Since creates come before deletes, a type and name that had a record has one throughout an execution if and only
      if a record of it is never deleted or one is created: whatever is refused in between, if it has one at the end
      it had one all along. */
  lemma NeverWithoutIff(naming: Naming, required: seq<DnsValue>, current: seq<ProviderRecord>, world: World,
                        selected: set<Change>, fates: seq<Fate>, kind: RecordType, name: string)
    requires Sits(naming, required, current, world) && Provides(world.zone, kind, name)
    requires |fates| == |ChangesOf(naming, required, current, world)|
    ensures var plan := ChangesOf(naming, required, current, world);
      var run := CarriedOut(plan, selected, fates, |plan|);
      ProvidesThroughout(naming, world, plan, selected, fates, kind, name) <==> KeepsOne(current, run, kind, name) || CreatesOne(run, kind, name)
  {
    hide PlanChanges, Executed, ChangesOf, CarriedOut, KeepsOne, CreatesOne;
    var plan := ChangesOf(naming, required, current, world);
    var run := CarriedOut(plan, selected, fates, |plan|);
    ExecutionProvidesIff(naming, required, current, world, selected, fates, |plan|, kind, name);
    if KeepsOne(current, run, kind, name) || CreatesOne(run, kind, name) {
      forall k | 0 <= k <= |plan|
        ensures Provides(Executed(naming, world, plan[..k], selected, fates[..k]).zone, kind, name)
      {
        ProvidedOnTheWay(naming, required, current, world, selected, fates, k, kind, name);
      }
    }
  }

  lemma ProvidedOnTheWay(naming: Naming, required: seq<DnsValue>, current: seq<ProviderRecord>, world: World,
                         selected: set<Change>, fates: seq<Fate>, k: nat, kind: RecordType, name: string)
    requires Sits(naming, required, current, world) && Provides(world.zone, kind, name)
    requires var plan := ChangesOf(naming, required, current, world);
      |fates| == |plan| && k <= |plan|
      && (KeepsOne(current, CarriedOut(plan, selected, fates, |plan|), kind, name) || CreatesOne(CarriedOut(plan, selected, fates, |plan|), kind, name))
    ensures var plan := ChangesOf(naming, required, current, world);
      Provides(Executed(naming, world, plan[..k], selected, fates[..k]).zone, kind, name)
  {
    hide PlanChanges, Executed, ChangesOf, CarriedOut;
    var plan := ChangesOf(naming, required, current, world);
    ExecutionProvidesIff(naming, required, current, world, selected, fates, k, kind, name);
    if KeepsOne(current, CarriedOut(plan, selected, fates, |plan|), kind, name) {
      KeptAllAlong(current, plan, selected, fates, k, kind, name);
    } else {
      var c :| c in CarriedOut(plan, selected, fates, |plan|) && c.action == Create && c.next.Some? && Has(c.next.value, kind, name);
      CarriedOutMembers(plan, selected, fates, |plan|, c);
      var i :| 0 <= i < |plan| && plan[i] == c && c in selected && !fates[i].Refused?;
      if i < k {
        CarriedOutMembers(plan, selected, fates, k, c);
      } else {
        NothingDeletedYet(naming, required, current, world, selected, fates, k, i);
        var id :| id in world.zone && Has(world.zone[id], kind, name);
        assert NotDeleted(CarriedOut(plan, selected, fates, k), ProviderRecord(id, world.zone[id]));
      }
    }
  }

  // Required names.

  /** Either nothing has been deleted, or every create of the plan has been carried out. */
  ghost predicate SafeRun(plan: seq<Change>, run: seq<Change>, nextId: nat) {
    && PartOf(plan, run, nextId)
    && ((exists c :: c in run && c.action == Delete) ==> forall c :: c in plan && c.action == Create ==> c in run)
  }

  /** A record that one change updates is not deleted by another. */
  lemma DeletesSpareTouched(naming: Naming, required: seq<DnsValue>, current: seq<ProviderRecord>, world: World, c: Change)
    requires Orderly(ChangesOf(naming, required, current, world), world.nextId)
    requires c in ChangesOf(naming, required, current, world) && c.action == Update
    ensures forall d :: d in ChangesOf(naming, required, current, world) && d.action == Delete ==> !Touches(d, c.record.value.id)
  {
    hide PlanChanges;
    var changes := ChangesOf(naming, required, current, world);
    var i :| 0 <= i < |changes| && changes[i] == c;
    forall d | d in changes && d.action == Delete
      ensures !Touches(d, c.record.value.id)
    {
      var j :| 0 <= j < |changes| && changes[j] == d;
    }
  }

  /** A plan keeps a record of a required type and name, or creates one. */
  lemma RequiredKeptOrCreated(naming: Naming, required: seq<DnsValue>, current: seq<ProviderRecord>, world: World, w: DnsValue)
    requires Sits(naming, required, current, world) && w in required
    ensures var plan := ChangesOf(naming, required, current, world); KeepsOne(current, plan, w.kind, w.name) || CreatesOne(plan, w.kind, w.name)
  {
    hide MatchAll, Deletions, Relevant, IsSlot, Conflicts;
    var relevant := Relevant(naming, required, world.ledger, current);
    var m := MatchAll(naming, relevant, world.ledger, required);
    PlanOrderly(naming, required, current, world.ledger, world.nextId);
    RelevantDistinct(naming, required, world.ledger, current);
    ServedAll(naming, relevant, world.ledger, required);
    ChangesFitAll(naming, relevant, world.ledger, required);
    if KeptFor(naming, relevant, m, w) {
      var r :| r in relevant && r.id in m.used && SameValue(naming, r.data, w) && !TouchedBy(m.changes, r.id);
      DeletesSpareUsed(naming, required, current, world.ledger, r.id);
      assert Has(r.data, w.kind, w.name) && NotDeleted(ChangesOf(naming, required, current, world), r);
    } else {
      var c :| c in m.changes && c.next == Some(w);
      assert c in ChangesOf(naming, required, current, world);
      if c.action == Update {
        SlotKeepsName(naming, w, c.record.value);
        DeletesSpareTouched(naming, required, current, world, c);
        assert Has(c.record.value.data, w.kind, w.name) && NotDeleted(ChangesOf(naming, required, current, world), c.record.value);
      }
    }
  }

  /** As long as no create is left out or refused, a required type and name that had a record has one at every
      moment, whichever updates and deletes are selected or refused. */
  lemma NeverWithout(naming: Naming, required: seq<DnsValue>, current: seq<ProviderRecord>, world: World, run: seq<Change>, w: DnsValue)
    requires Sits(naming, required, current, world) && SafeRun(ChangesOf(naming, required, current, world), run, world.nextId)
    requires w in required && Provides(world.zone, w.kind, w.name)
    ensures Provides(AppliedAll(naming, world, run).zone, w.kind, w.name)
  {
    hide AppliedAll, PlanChanges, ChangesOf, Orderly;
    ProvidesIff(naming, required, current, world, run, w.kind, w.name);
    RequiredKeptOrCreated(naming, required, current, world, w);
    var plan := ChangesOf(naming, required, current, world);
    if exists c :: c in run && c.action == Delete {
      if KeepsOne(current, plan, w.kind, w.name) {
        var r :| r in current && Has(r.data, w.kind, w.name) && NotDeleted(plan, r);
        assert NotDeleted(run, r);
      }
    } else {
      var id :| id in world.zone && Has(world.zone[id], w.kind, w.name);
      assert NotDeleted(run, ProviderRecord(id, world.zone[id]));
    }
  }

  /** Every create of the plan is selected and carried out. */
  ghost predicate CreatesSucceed(changes: seq<Change>, selected: set<Change>, fates: seq<Fate>) {
    |fates| == |changes| && forall i :: 0 <= i < |changes| && changes[i].action == Create ==> changes[i] in selected && !fates[i].Refused?
  }

  /** At every moment of an execution whose creates succeed, what has been carried out is safe. */
  lemma ExecutionSafe(naming: Naming, required: seq<DnsValue>, current: seq<ProviderRecord>, world: World,
                      selected: set<Change>, fates: seq<Fate>, k: nat)
    requires Stands(current, world) && CreatesSucceed(ChangesOf(naming, required, current, world), selected, fates)
    requires k <= |ChangesOf(naming, required, current, world)|
    ensures var plan := ChangesOf(naming, required, current, world); SafeRun(plan, CarriedOut(plan, selected, fates, k), world.nextId)
  {
    var plan := ChangesOf(naming, required, current, world);
    var run := CarriedOut(plan, selected, fates, k);
    hide PlanChanges, ChangesOf, CarriedOut, PartOf;
    CarriedOutIsPart(naming, required, current, world, selected, fates, k);
    if d :| d in run && d.action == Delete {
      forall c | c in plan && c.action == Create
        ensures c in run
      {
        var j :| 0 <= j < |plan| && plan[j] == c;
        if k <= j { NothingDeletedYet(naming, required, current, world, selected, fates, k, j); }
        CarriedOutMembers(plan, selected, fates, k, c);
      }
    }
  }

  /** The default selection, and the full one, contain every create. */
  lemma DefaultSelectsCreates(naming: Naming, required: seq<DnsValue>, current: seq<ProviderRecord>, owned: set<RecordKey>, c: Change)
    requires c in PlanChanges(naming, required, current, owned).changes && c.action == Create
    ensures c.owned
  {
    var relevant := Relevant(naming, required, owned, current);
    ChangesFitAll(naming, relevant, owned, required);
  }

  // When a create is refused the later deletes still run.

  const HOST := DnsValue(MX, "example.org", "10 new.example.org")
  const OLD_HOST := DnsValue(MX, "example.org", "10 old.example.org")

  function PlainNaming(): Naming {
    Naming((name: string) => name, (kind: RecordType, value: string) => value, (value: string) => None)
  }

  /** The plan replaces the old MX record of the host by a new one. */
  lemma ReplacementPlan()
    ensures var naming := PlainNaming();
      PlanChanges(naming, [HOST], [ProviderRecord(0, OLD_HOST)], {KeyOf(naming, OLD_HOST)}).changes ==
        [Change(Create, None, Some(HOST), true), Change(Delete, Some(ProviderRecord(0, OLD_HOST)), None, true)]
  {
    var naming := PlainNaming();
    var required, record := [HOST], ProviderRecord(0, OLD_HOST);
    var owned := {KeyOf(naming, OLD_HOST)};
    var relevant := Relevant(naming, required, owned, [record]);
    assert relevant == [record] by {
      assert [record][1..] == [] && [record][0] == record;
      assert HOST in required && KeyOf(naming, record.data) in owned;
      assert IsRelevant(naming, required, owned, record);
      assert Relevant(naming, required, owned, []) == [];
    }
    assert required[..0] == [] && required[0] == HOST;
    assert FindExact(naming, relevant, {}, HOST) == None by { assert relevant[1..] == []; }
    assert FindSlot(naming, relevant, {}, HOST) == None by { assert relevant[1..] == []; }
    assert MatchAll(naming, relevant, owned, required) == Matching({}, [Change(Create, None, Some(HOST), true)], 0);
    assert Deletions(naming, required, owned, {}, relevant) == [Change(Delete, Some(record), None, true)] by { assert relevant[1..] == []; }
  }

  lemma OnlySecondAccepted(first: Change, second: Change)
    ensures Effective([first, second], set c | c in [first, second], [Refused, Answered]) == [second]
  {
    var plan := [first, second];
    var selected := set c | c in plan;
    assert plan[..1] == [first] && plan[..1][..0] == [] && [Refused, Answered][..1] == [Refused] && [Refused][..0] == [];
    assert Effective(plan[..1], selected, [Refused]) == [];
    assert plan[1] in selected;
  }

  /** A refused create followed by the delete it was to replace leaves the name without any MX record. */
  lemma RefusedCreateLosesRecord()
    ensures var naming := PlainNaming(); var required := [HOST]; var current := [ProviderRecord(0, OLD_HOST)];
      var world := World(map[0 := OLD_HOST], {KeyOf(naming, OLD_HOST)}, 1);
      var plan := PlanChanges(naming, required, current, world.ledger).changes;
      && plan == [Change(Create, None, Some(HOST), true), Change(Delete, Some(ProviderRecord(0, OLD_HOST)), None, true)]
      && Provides(world.zone, MX, "example.org")
      && !Provides(Executed(naming, world, plan, set c | c in plan, [Refused, Answered]).zone, MX, "example.org")
  {
    hide PlanChanges, Effective, Executed;
    var naming := PlainNaming();
    var delete := Change(Delete, Some(ProviderRecord(0, OLD_HOST)), None, true);
    ReplacementPlan();
    OnlySecondAccepted(Change(Create, None, Some(HOST), true), delete);
    var world := World(map[0 := OLD_HOST], {KeyOf(naming, OLD_HOST)}, 1);
    var plan := [Change(Create, None, Some(HOST), true), delete];
    ExecutedZone(naming, world, plan, set c | c in plan, [Refused, Answered]);
    assert [delete][..0] == [];
    assert AppliedAll(naming, world, [delete]).zone == map[];
    assert world.zone[0] == OLD_HOST;
  }
}
