/** `planChanges`: what it takes to bring a DNS zone in line with the records a mail server requires. */
module DnsPlan {
  import opened PriorityQueue

  datatype RecordType = MX | TXT | CNAME | SRV

  datatype DnsValue = DnsValue(kind: RecordType, name: string, value: string)

  /** A record of the zone; ids are whatever the provider hands out. */
  datatype ProviderRecord = ProviderRecord(id: nat, data: DnsValue)

  datatype RecordKey = RecordKey(kind: RecordType, name: string, value: string)

  /** The string functions of the planner: `absolute`, `normalizeValue` and `txtKind`. */
  datatype Naming = Naming(
    absolute: string -> string, normalizeValue: (RecordType, string) -> string, txtKind: string -> Option<string>)

  datatype Action = Create | Update | Delete

  /** A change is selected by default exactly when it is `owned`. */
  datatype Change = Change(action: Action, record: Option<ProviderRecord>, next: Option<DnsValue>, owned: bool)

  datatype Plan = Plan(changes: seq<Change>, inSync: nat)

  function KeyOf(naming: Naming, data: DnsValue): RecordKey {
    RecordKey(data.kind, naming.absolute(data.name), naming.normalizeValue(data.kind, data.value))
  }

  /** `sameValue`: type, name and value agree once normalized. */
  predicate SameValue(naming: Naming, a: DnsValue, b: DnsValue) {
    KeyOf(naming, a) == KeyOf(naming, b)
  }

  function RequiredNames(naming: Naming, required: seq<DnsValue>): set<string> {
    set want | want in required :: naming.absolute(want.name)
  }

  /** Records at required names, and records Postreeve created. */
  predicate IsRelevant(naming: Naming, required: seq<DnsValue>, owned: set<RecordKey>, record: ProviderRecord) {
    record.data.name in RequiredNames(naming, required) || KeyOf(naming, record.data) in owned
  }

  function Relevant(naming: Naming, required: seq<DnsValue>, owned: set<RecordKey>, current: seq<ProviderRecord>): (r: seq<ProviderRecord>)
    ensures forall x :: x in r <==> x in current && IsRelevant(naming, required, owned, x)
  {
    if current == [] then []
    else
      var rest := Relevant(naming, required, owned, current[1..]);
      assert forall x :: x in current <==> x == current[0] || x in current[1..];
      if IsRelevant(naming, required, owned, current[0]) then [current[0]] + rest else rest
  }

  predicate SamePolicy(naming: Naming, a: string, b: string) {
    naming.txtKind(a).Some? && naming.txtKind(a) == naming.txtKind(b)
  }

  /** A record whose value may be overwritten with the wanted one. */
  predicate IsSlot(naming: Naming, want: DnsValue, record: ProviderRecord) {
    && record.data.kind == want.kind && record.data.name == naming.absolute(want.name)
    && (want.kind == CNAME || want.kind == SRV || (want.kind == TXT && SamePolicy(naming, record.data.value, want.value)))
  }

  /** The first record not used yet that has exactly the wanted value. */
  function FindExact(naming: Naming, relevant: seq<ProviderRecord>, used: set<nat>, want: DnsValue): (r: Option<ProviderRecord>)
    ensures r.Some? ==> r.value in relevant && r.value.id !in used && SameValue(naming, r.value.data, want)
    ensures r.None? ==> forall x :: x in relevant && x.id !in used ==> !SameValue(naming, x.data, want)
  {
    if relevant == [] then None
    else if relevant[0].id !in used && SameValue(naming, relevant[0].data, want) then Some(relevant[0])
    else
      assert forall x :: x in relevant <==> x == relevant[0] || x in relevant[1..];
      FindExact(naming, relevant[1..], used, want)
  }

  function FindSlot(naming: Naming, relevant: seq<ProviderRecord>, used: set<nat>, want: DnsValue): (r: Option<ProviderRecord>)
    ensures r.Some? ==> r.value in relevant && r.value.id !in used && IsSlot(naming, want, r.value)
    ensures r.None? ==> forall x :: x in relevant && x.id !in used ==> !IsSlot(naming, want, x)
  {
    if relevant == [] then None
    else if relevant[0].id !in used && IsSlot(naming, want, relevant[0]) then Some(relevant[0])
    else
      assert forall x :: x in relevant <==> x == relevant[0] || x in relevant[1..];
      FindSlot(naming, relevant[1..], used, want)
  }

  /** What the loop over the required records has decided so far. */
  datatype Matching = Matching(used: set<nat>, changes: seq<Change>, inSync: nat)

  function MatchOne(naming: Naming, relevant: seq<ProviderRecord>, owned: set<RecordKey>, m: Matching, want: DnsValue): Matching {
    match FindExact(naming, relevant, m.used, want)
    case Some(exact) => m.(used := m.used + {exact.id}, inSync := m.inSync + 1)
    case None =>
      match FindSlot(naming, relevant, m.used, want)
      case Some(slot) =>
        m.(used := m.used + {slot.id},
           changes := m.changes + [Change(Update, Some(slot), Some(want), KeyOf(naming, slot.data) in owned)])
      case None => m.(changes := m.changes + [Change(Create, None, Some(want), true)])
  }

  function MatchAll(naming: Naming, relevant: seq<ProviderRecord>, owned: set<RecordKey>, required: seq<DnsValue>): Matching {
    if required == [] then Matching({}, [], 0)
    else MatchOne(naming, relevant, owned, MatchAll(naming, relevant, owned, required[..|required| - 1]), required[|required| - 1])
  }

  /** A record stands in the way of a required one of the same type and name. */
  predicate Conflicts(naming: Naming, required: seq<DnsValue>, record: ProviderRecord) {
    exists want :: want in required && want.name == record.data.name && want.kind == record.data.kind
      && (record.data.kind != TXT || SamePolicy(naming, record.data.value, want.value))
  }

  predicate IsSurplus(naming: Naming, required: seq<DnsValue>, owned: set<RecordKey>, used: set<nat>, record: ProviderRecord) {
    record.id !in used && (KeyOf(naming, record.data) in owned || Conflicts(naming, required, record))
  }

  function Deletions(naming: Naming, required: seq<DnsValue>, owned: set<RecordKey>, used: set<nat>, relevant: seq<ProviderRecord>): (r: seq<Change>)
    ensures forall c :: c in r ==> c.action == Delete && c.record.Some? && c.record.value in relevant
    ensures forall c :: c in r ==> IsSurplus(naming, required, owned, used, c.record.value)
    ensures forall x :: x in relevant && IsSurplus(naming, required, owned, used, x) ==>
      Change(Delete, Some(x), None, KeyOf(naming, x.data) in owned) in r
  {
    if relevant == [] then []
    else
      var rest := Deletions(naming, required, owned, used, relevant[1..]);
      assert forall x :: x in relevant <==> x == relevant[0] || x in relevant[1..];
      if IsSurplus(naming, required, owned, used, relevant[0])
      then [Change(Delete, Some(relevant[0]), None, KeyOf(naming, relevant[0].data) in owned)] + rest
      else rest
  }

  /** Creates and updates come first and deletes last, so the closing sort has nothing left to move. */
  function PlanChanges(naming: Naming, required: seq<DnsValue>, current: seq<ProviderRecord>, owned: set<RecordKey>): Plan {
    var relevant := Relevant(naming, required, owned, current);
    var m := MatchAll(naming, relevant, owned, required);
    Plan(m.changes + Deletions(naming, required, owned, m.used, relevant), m.inSync)
  }

  /** The stable sort that puts deletes behind everything else. */
  function DeletesLast(changes: seq<Change>): seq<Change> {
    OfAction(changes, false) + OfAction(changes, true)
  }

  function OfAction(changes: seq<Change>, deletes: bool): seq<Change> {
    if changes == [] then []
    else (if (changes[0].action == Delete) == deletes then [changes[0]] else []) + OfAction(changes[1..], deletes)
  }

  lemma {:induction false} OfActionSum(a: seq<Change>, b: seq<Change>, deletes: bool)
    ensures OfAction(a + b, deletes) == OfAction(a, deletes) + OfAction(b, deletes)
  {
    if a == [] {
      assert a + b == b;
    } else {
      assert (a + b)[1..] == a[1..] + b;
      OfActionSum(a[1..], b, deletes);
    }
  }

  lemma {:induction false} OfActionUniform(changes: seq<Change>, deletes: bool)
    requires forall c :: c in changes ==> (c.action == Delete) == deletes
    ensures OfAction(changes, deletes) == changes && OfAction(changes, !deletes) == []
  {
    if changes != [] {
      OfActionUniform(changes[1..], deletes);
      assert changes[0] in changes && changes == [changes[0]] + changes[1..];
    }
  }

  lemma {:induction false} MatchingHasNoDeletes(naming: Naming, relevant: seq<ProviderRecord>, owned: set<RecordKey>, required: seq<DnsValue>)
    ensures forall c :: c in MatchAll(naming, relevant, owned, required).changes ==> c.action != Delete
  {
    if required != [] {
      MatchingHasNoDeletes(naming, relevant, owned, required[..|required| - 1]);
    }
  }

  lemma SortIsIdle(naming: Naming, required: seq<DnsValue>, current: seq<ProviderRecord>, owned: set<RecordKey>)
    ensures DeletesLast(PlanChanges(naming, required, current, owned).changes) == PlanChanges(naming, required, current, owned).changes
  {
    var relevant := Relevant(naming, required, owned, current);
    var m := MatchAll(naming, relevant, owned, required);
    hide MatchAll, Relevant, IsSurplus, Conflicts, Deletions, OfAction;
    var deletions := Deletions(naming, required, owned, m.used, relevant);
    MatchingHasNoDeletes(naming, relevant, owned, required);
    OfActionSum(m.changes, deletions, false);
    OfActionSum(m.changes, deletions, true);
    OfActionUniform(m.changes, false);
    OfActionUniform(deletions, true);
    assert m.changes + [] + ([] + deletions) == m.changes + deletions;
  }

  /** The loop over the required records. */
  method MatchRequired(naming: Naming, relevant: seq<ProviderRecord>, owned: set<RecordKey>, required: seq<DnsValue>)
    returns (used: set<nat>, changes: seq<Change>, inSync: nat)
    ensures Matching(used, changes, inSync) == MatchAll(naming, relevant, owned, required)
  {
    used, changes, inSync := {}, [], 0;
    for i := 0 to |required|
      invariant Matching(used, changes, inSync) == MatchAll(naming, relevant, owned, required[..i])
    {
      assert required[..i + 1][..i] == required[..i];
      var want := required[i];
      var exact := FindExact(naming, relevant, used, want);
      if exact.Some? {
        used, inSync := used + {exact.value.id}, inSync + 1;
        continue;
      }
      var slot := FindSlot(naming, relevant, used, want);
      if slot.Some? {
        used := used + {slot.value.id};
        changes := changes + [Change(Update, slot, Some(want), KeyOf(naming, slot.value.data) in owned)];
      } else {
        changes := changes + [Change(Create, None, Some(want), true)];
      }
    }
    assert required[..|required|] == required;
  }

  /** The loop over the records nothing has used. */
  method DeleteSurplus(naming: Naming, required: seq<DnsValue>, owned: set<RecordKey>, used: set<nat>, relevant: seq<ProviderRecord>)
    returns (changes: seq<Change>)
    ensures changes == Deletions(naming, required, owned, used, relevant)
  {
    changes := [];
    assert relevant[0..] == relevant;
    for i := 0 to |relevant|
      invariant changes + Deletions(naming, required, owned, used, relevant[i..]) == Deletions(naming, required, owned, used, relevant)
    {
      assert relevant[i..][1..] == relevant[i + 1..];
      var record := relevant[i];
      if record.id in used { continue; }
      var mine := KeyOf(naming, record.data) in owned;
      if !mine && !Conflicts(naming, required, record) { continue; }
      ghost var before := changes;
      changes := changes + [Change(Delete, Some(record), None, mine)];
      assert before + ([Change(Delete, Some(record), None, mine)] + Deletions(naming, required, owned, used, relevant[i + 1..]))
        == changes + Deletions(naming, required, owned, used, relevant[i + 1..]);
    }
    assert relevant[|relevant|..] == [];
  }

  /** `planChanges`, with its loops and its sort. */
  method ComputePlan(naming: Naming, required: seq<DnsValue>, current: seq<ProviderRecord>, owned: set<RecordKey>) returns (plan: Plan)
    ensures plan == PlanChanges(naming, required, current, owned)
  {
    hide MatchAll, Relevant, Deletions, OfAction, DeletesLast;
    var relevant := Relevant(naming, required, owned, current);
    var used, changes, inSync := MatchRequired(naming, relevant, owned, required);
    var deletions := DeleteSurplus(naming, required, owned, used, relevant);
    SortIsIdle(naming, required, current, owned);
    plan := Plan(DeletesLast(changes + deletions), inSync);
  }
}
