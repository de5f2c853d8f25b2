/** Which records of a zone a plan leaves alone, and which ones are left, in terms of types, names and values. */
module DnsOthers {
  import opened PriorityQueue
  import opened Requests
  import opened DnsPlan
  import opened DnsExecution
  import opened DnsLaws
  import opened DnsSafety

  /** Postreeve did not create the record, as far as the ledger knows. */
  ghost predicate Foreign(naming: Naming, owned: set<RecordKey>, r: ProviderRecord) {
    RecordKey(r.data.kind, naming.absolute(r.data.name), naming.normalizeValue(r.data.kind, r.data.value)) !in owned
  }

  /** The record competes with a required one: same type and name, and for a TXT record also the same kind of policy. */
  ghost predicate Competes(naming: Naming, want: DnsValue, r: ProviderRecord) {
    && r.data.kind == want.kind && r.data.name == want.name
    && (want.kind == TXT ==> naming.txtKind(r.data.value).Some? && naming.txtKind(r.data.value) == naming.txtKind(want.value))
  }

  lemma ChangeOfPlan(naming: Naming, required: seq<DnsValue>, current: seq<ProviderRecord>, owned: set<RecordKey>, c: Change)
    requires c in PlanChanges(naming, required, current, owned).changes && c.record.Some?
    ensures c.record.value in current
    ensures c.owned <==> !Foreign(naming, owned, c.record.value)
    ensures c.action == Update || c.action == Delete
    ensures c.action == Delete ==> !Foreign(naming, owned, c.record.value) || Conflicts(naming, required, c.record.value)
    ensures c.action == Update ==> c.next.Some? && c.next.value in required && IsSlot(naming, c.next.value, c.record.value)
  {
    hide MatchAll, Deletions, Relevant, IsSlot, Conflicts;
    var relevant := Relevant(naming, required, owned, current);
    var m := MatchAll(naming, relevant, owned, required);
    var d := Deletions(naming, required, owned, m.used, relevant);
    ChangesFitAll(naming, relevant, owned, required);
    assert c in m.changes || c in d;
    if c in d && c !in m.changes {
      DeletionOwned(naming, required, owned, m.used, relevant, c);
    }
  }

  lemma {:induction false} DeletionOwned(naming: Naming, required: seq<DnsValue>, owned: set<RecordKey>, used: set<nat>,
                                         relevant: seq<ProviderRecord>, c: Change)
    requires c in Deletions(naming, required, owned, used, relevant)
    ensures c.record.Some? && c.owned == (KeyOf(naming, c.record.value.data) in owned)
  {
    hide IsSurplus;
    if relevant != [] {
      var rest := Deletions(naming, required, owned, used, relevant[1..]);
      if c in rest { DeletionOwned(naming, required, owned, used, relevant[1..], c); }
    }
  }

  /** A change to a record that Postreeve did not create is never selected by default, and is only proposed for a record
      that competes with a required one; an MX record is never overwritten. */
  lemma OthersTouchedOnlyIf(naming: Naming, required: seq<DnsValue>, current: seq<ProviderRecord>, owned: set<RecordKey>, c: Change)
    requires NamesNormal(naming, required, current)
    requires c in PlanChanges(naming, required, current, owned).changes && c.record.Some? && Foreign(naming, owned, c.record.value)
    ensures !c.owned && exists want :: want in required && Competes(naming, want, c.record.value)
    ensures c.action == Update ==> c.record.value.data.kind != MX && c.next.Some? && Competes(naming, c.next.value, c.record.value)
  {
    hide PlanChanges;
    ChangeOfPlan(naming, required, current, owned, c);
  }

  /** So a TXT record that is no policy of a known kind, say a site verification, is never deleted or overwritten unless
      Postreeve created it; nor is anything at a name or of a type that is not required. */
  lemma NoCompetitorSpared(naming: Naming, required: seq<DnsValue>, current: seq<ProviderRecord>, world: World,
                           selected: set<Change>, fates: seq<Fate>, k: nat, r: ProviderRecord)
    requires Sits(naming, required, current, world) && r in current && Foreign(naming, world.ledger, r)
    requires |fates| == |ChangesOf(naming, required, current, world)| && k <= |fates|
    requires (r.data.kind == TXT && naming.txtKind(r.data.value).None?) || (forall want :: want in required ==> !Competes(naming, want, r))
    ensures var zone := Executed(naming, world, ChangesOf(naming, required, current, world)[..k], selected, fates[..k]).zone;
      r.id in zone && zone[r.id] == r.data
  {
    hide PlanChanges, CarriedOut, Effective;
    var plan := ChangesOf(naming, required, current, world);
    assert forall x :: x in current && x.id == r.id ==> x == r;
    forall c | c in CarriedOut(plan, selected, fates, k)
      ensures !Touches(c, r.id)
    {
      CarriedOutMembers(plan, selected, fates, k, c);
      assert c in plan;
      if Touches(c, r.id) {
        ChangeOfPlan(naming, required, current, world.ledger, c);
        OthersTouchedOnlyIf(naming, required, current, world.ledger, c);
      }
    }
    StaysInZone(naming, required, current, world, selected, fates, k, r);
  }

  lemma StaysInZone(naming: Naming, required: seq<DnsValue>, current: seq<ProviderRecord>, world: World,
                    selected: set<Change>, fates: seq<Fate>, k: nat, r: ProviderRecord)
    requires Stands(current, world) && r in current
    requires |fates| == |ChangesOf(naming, required, current, world)| && k <= |fates|
    requires forall c :: c in CarriedOut(ChangesOf(naming, required, current, world), selected, fates, k) ==> !Touches(c, r.id)
    ensures var zone := Executed(naming, world, ChangesOf(naming, required, current, world)[..k], selected, fates[..k]).zone;
      r.id in zone && zone[r.id] == r.data
  {
    hide PlanChanges, Effective, AppliedAll, Executed, ChangesOf;
    var plan := ChangesOf(naming, required, current, world);
    CarriedOutIsPart(naming, required, current, world, selected, fates, k);
    UntouchedStays(naming, world, CarriedOut(plan, selected, fates, k), r.id);
    ExecutedZone(naming, world, plan[..k], selected, fates[..k]);
  }

  /** With what is selected by default, or less, no record that Postreeve did not create is ever changed. */
  lemma DefaultSparesOthers(naming: Naming, required: seq<DnsValue>, current: seq<ProviderRecord>, world: World,
                            selected: set<Change>, fates: seq<Fate>, k: nat, r: ProviderRecord)
    requires Stands(current, world) && r in current && Foreign(naming, world.ledger, r)
    requires |fates| == |ChangesOf(naming, required, current, world)| && k <= |fates|
    requires forall c :: c in selected ==> c.owned
    ensures var zone := Executed(naming, world, ChangesOf(naming, required, current, world)[..k], selected, fates[..k]).zone;
      r.id in zone && zone[r.id] == r.data
  {
    hide PlanChanges, CarriedOut, Effective;
    var plan := ChangesOf(naming, required, current, world);
    assert forall x :: x in current && x.id == r.id ==> x == r;
    forall c | c in CarriedOut(plan, selected, fates, k)
      ensures !Touches(c, r.id)
    {
      CarriedOutMembers(plan, selected, fates, k, c);
      assert c in plan;
      if Touches(c, r.id) {
        ChangeOfPlan(naming, required, current, world.ledger, c);
      }
    }
    StaysInZone(naming, required, current, world, selected, fates, k, r);
  }

  /** When all changes are carried out, nothing is left that competes with a required record or that Postreeve once created,
      except the required records themselves. */
  lemma OnlyRequiredLeft(naming: Naming, required: seq<DnsValue>, current: seq<ProviderRecord>, world: World, id: nat)
    requires Planned(naming, required, current, world) && id in After(naming, required, current, world).zone
    requires var r := ProviderRecord(id, After(naming, required, current, world).zone[id]);
      (exists want :: want in required && Competes(naming, want, r)) || (r in current && !Foreign(naming, world.ledger, r))
    ensures var data := After(naming, required, current, world).zone[id];
      exists w :: w in required && w.kind == data.kind && naming.absolute(w.name) == naming.absolute(data.name)
        && naming.normalizeValue(w.kind, w.value) == naming.normalizeValue(data.kind, data.value)
  {
    hide After, DistinctKeys, DistinctRequired;
    ResultRecords(naming, required, current, world, id);
    var data := After(naming, required, current, world).zone[id];
    if Wanted(naming, required, data) {
      var w :| w in required && SameValue(naming, data, w);
    } else {
      var r := ProviderRecord(id, data);
      CompetitorMinded(naming, required, current, world.ledger, r);
    }
  }

  lemma CompetitorMinded(naming: Naming, required: seq<DnsValue>, current: seq<ProviderRecord>, owned: set<RecordKey>, r: ProviderRecord)
    requires NamesNormal(naming, required, current) && r in current
    requires (exists want :: want in required && Competes(naming, want, r)) || !Foreign(naming, owned, r)
    ensures !Harmless(naming, required, owned, r)
  {
    if want :| want in required && Competes(naming, want, r) {
      assert naming.absolute(want.name) == r.data.name;
      assert r.data.name in RequiredNames(naming, required);
      assert Conflicts(naming, required, r);
    }
  }

  // Overwriting before replacing.

  lemma {:induction false} CreateHadNoSlot(naming: Naming, relevant: seq<ProviderRecord>, owned: set<RecordKey>, required: seq<DnsValue>,
                                           c: Change, x: ProviderRecord)
    requires c in MatchAll(naming, relevant, owned, required).changes && c.action == Create
    requires x in relevant && x.id !in MatchAll(naming, relevant, owned, required).used
    ensures c.next.Some? && !IsSlot(naming, c.next.value, x)
  {
    hide IsSlot, SameValue;
    if required != [] {
      var n := |required| - 1;
      var before := MatchAll(naming, relevant, owned, required[..n]);
      assert before.used <= MatchAll(naming, relevant, owned, required).used;
      if c in before.changes { CreateHadNoSlot(naming, relevant, owned, required[..n], c, x); }
    }
  }

  /** A record that could be overwritten with a required value is never deleted next to a create of that value; so there are
      never two CNAME records, two SRV records or two policies of a kind at a name on the way. */
  lemma NeverReplaced(naming: Naming, required: seq<DnsValue>, current: seq<ProviderRecord>, owned: set<RecordKey>, create: Change, delete: Change)
    requires NamesNormal(naming, required, current)
    requires create in PlanChanges(naming, required, current, owned).changes && create.action == Create
    requires delete in PlanChanges(naming, required, current, owned).changes && delete.action == Delete
    ensures create.next.Some? && delete.record.Some?
    ensures create.next.value.kind != MX ==> !Competes(naming, create.next.value, delete.record.value)
  {
    hide MatchAll, Deletions, Relevant, IsSlot, IsSurplus, Conflicts;
    var relevant := Relevant(naming, required, owned, current);
    var m := MatchAll(naming, relevant, owned, required);
    var d := Deletions(naming, required, owned, m.used, relevant);
    ChangesFitAll(naming, relevant, owned, required);
    MatchingHasNoDeletes(naming, relevant, owned, required);
    assert create in m.changes && delete in d;
    SurplusUnused(naming, required, owned, m.used, delete.record.value);
    CreateHadNoSlot(naming, relevant, owned, required, create, delete.record.value);
    if create.next.value.kind != MX && Competes(naming, create.next.value, delete.record.value) {
      CompetitorIsSlot(naming, create.next.value, delete.record.value);
    }
  }

  lemma CompetitorIsSlot(naming: Naming, want: DnsValue, r: ProviderRecord)
    requires naming.absolute(want.name) == want.name && want.kind != MX && Competes(naming, want, r)
    ensures IsSlot(naming, want, r)
  {
  }

  lemma {:induction false} MatchingCounts(naming: Naming, relevant: seq<ProviderRecord>, owned: set<RecordKey>, required: seq<DnsValue>)
    ensures |MatchAll(naming, relevant, owned, required).changes| + MatchAll(naming, relevant, owned, required).inSync == |required|
  {
    if required != [] {
      hide IsSlot, SameValue;
      MatchingCounts(naming, relevant, owned, required[..|required| - 1]);
    }
  }

  /** Every required record is counted once, as being in sync, or as created or updated by one of the leading changes. */
  lemma EveryRequiredCounts(naming: Naming, required: seq<DnsValue>, current: seq<ProviderRecord>, owned: set<RecordKey>) returns (k: nat)
    ensures var plan := PlanChanges(naming, required, current, owned);
      && k + plan.inSync == |required| && k <= |plan.changes|
      && forall i :: 0 <= i < |plan.changes| ==> (i < k <==> plan.changes[i].action != Delete)
  {
    hide MatchAll, Deletions, Relevant, IsSurplus;
    var relevant := Relevant(naming, required, owned, current);
    var m := MatchAll(naming, relevant, owned, required);
    var d := Deletions(naming, required, owned, m.used, relevant);
    MatchingCounts(naming, relevant, owned, required);
    MatchingHasNoDeletes(naming, relevant, owned, required);
    k := |m.changes|;
    assert forall i :: 0 <= i < |m.changes| ==> m.changes[i] in m.changes;
    assert forall i :: 0 <= i < |d| ==> d[i] in d;
  }
}
