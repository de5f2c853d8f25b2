/** `#execute`: carries out selected changes one by one against the provider and keeps the ledger of records
    Postreeve created. */
module DnsExecution {
  import opened PriorityQueue
  import opened Requests
  import opened DnsPlan

  /** The zone by record id, and the ledger of created records for that provider and zone. Record ids from
      `nextId` on have not been given out yet. */
  datatype World = World(zone: map<nat, DnsValue>, ledger: set<RecordKey>, nextId: nat)

  /** One change that the provider carries out. */
  function Applied(naming: Naming, world: World, change: Change): World {
    match change
    case Change(Create, _, Some(next), _) =>
      World(world.zone[world.nextId := next], world.ledger + {KeyOf(naming, next)}, world.nextId + 1)
    case Change(Update, Some(record), Some(next), owned) =>
      World(world.zone[record.id := next],
            if owned then world.ledger - {KeyOf(naming, record.data)} + {KeyOf(naming, next)} else world.ledger, world.nextId)
    case Change(Delete, Some(record), _, _) =>
      World(world.zone - {record.id}, world.ledger - {KeyOf(naming, record.data)}, world.nextId)
    case _ => world
  }

  function AppliedAll(naming: Naming, world: World, changes: seq<Change>): World {
    if changes == [] then world
    else Applied(naming, AppliedAll(naming, world, changes[..|changes| - 1]), changes[|changes| - 1])
  }

  /** A change whose answer is lost has changed the zone, but the ledger does not know. */
  function Attempted(naming: Naming, world: World, change: Change, fate: Fate): World {
    match fate
    case Answered => Applied(naming, world, change)
    case Refused => world
    case Lost => Applied(naming, world, change).(ledger := world.ledger)
  }

  /** The world after the selected changes; `fates[i]` is what becomes of the `i`-th change. */
  function Executed(naming: Naming, world: World, changes: seq<Change>, selected: set<Change>, fates: seq<Fate>): World
    requires |fates| == |changes|
  {
    if changes == [] then world
    else
      var n := |changes| - 1;
      var before := Executed(naming, world, changes[..n], selected, fates[..n]);
      if changes[n] in selected then Attempted(naming, before, changes[n], fates[n]) else before
  }

  /** The changes that reach the zone. */
  function Effective(changes: seq<Change>, selected: set<Change>, fates: seq<Fate>): seq<Change>
    requires |fates| == |changes|
  {
    if changes == [] then []
    else
      var n := |changes| - 1;
      Effective(changes[..n], selected, fates[..n]) + if changes[n] in selected && !fates[n].Refused? then [changes[n]] else []
  }

  /** The changes that reach the ledger. */
  function Confirmed(changes: seq<Change>, selected: set<Change>, fates: seq<Fate>): seq<Change>
    requires |fates| == |changes|
  {
    if changes == [] then []
    else
      var n := |changes| - 1;
      Confirmed(changes[..n], selected, fates[..n]) + if changes[n] in selected && fates[n].Answered? then [changes[n]] else []
  }

  /** The report: every selected change with its outcome. */
  function Report(changes: seq<Change>, selected: set<Change>, fates: seq<Fate>): seq<(Change, bool)>
    requires |fates| == |changes|
  {
    if changes == [] then []
    else
      var n := |changes| - 1;
      Report(changes[..n], selected, fates[..n]) + if changes[n] in selected then [(changes[n], fates[n].Answered?)] else []
  }

  class DnsExecutor {
    const naming: Naming
    var zone: map<nat, DnsValue>
    var ledger: set<RecordKey>
    var nextId: nat

    ghost function State(): World
      reads this
    {
      World(zone, ledger, nextId)
    }

    constructor (naming: Naming, zone: map<nat, DnsValue>, ledger: set<RecordKey>, nextId: nat)
      ensures this.naming == naming && State() == World(zone, ledger, nextId)
    {
      this.naming, this.zone, this.ledger, this.nextId := naming, zone, ledger, nextId;
    }

    method Own(key: RecordKey)
      modifies this`ledger
      ensures ledger == old(ledger) + {key}
    {
      ledger := ledger + {key};
    }

    method Disown(key: RecordKey)
      modifies this`ledger
      ensures ledger == old(ledger) - {key}
    {
      ledger := ledger - {key};
    }

    /** Runs the selected changes in order; a change that fails is reported, and whatever the provider made of it
        the ledger stays as it is. */
    method Execute(changes: seq<Change>, selected: set<Change>, fates: seq<Fate>) returns (results: seq<(Change, bool)>)
      requires |fates| == |changes|
      requires forall c :: c in changes ==> (c.action != Create ==> c.record.Some?) && (c.action != Delete ==> c.next.Some?)
      modifies this
      ensures State() == Executed(naming, old(State()), changes, selected, fates)
      ensures results == Report(changes, selected, fates)
    {
      results := [];
      for i := 0 to |changes|
        invariant results == Report(changes[..i], selected, fates[..i])
        invariant State() == Executed(naming, old(State()), changes[..i], selected, fates[..i])
      {
        var change := changes[i];
        assert changes[..i + 1][..i] == changes[..i] && fates[..i + 1][..i] == fates[..i];
        if change !in selected { continue; }
        if fates[i].Refused? {
          results := results + [(change, false)];
          continue;
        }
        if change.action == Create {
          zone, nextId := zone[nextId := change.next.value], nextId + 1;
        } else if change.action == Update {
          zone := zone[change.record.value.id := change.next.value];
        } else {
          zone := zone - {change.record.value.id};
        }
        if fates[i].Lost? {
          results := results + [(change, false)];
          continue;
        }
        if change.action == Create {
          Own(KeyOf(naming, change.next.value));
        } else if change.action == Update {
          if change.owned {
            Disown(KeyOf(naming, change.record.value.data));
            Own(KeyOf(naming, change.next.value));
          }
        } else {
          Disown(KeyOf(naming, change.record.value.data));
        }
        results := results + [(change, true)];
      }
      assert changes[..|changes|] == changes && fates[..|fates|] == fates;
    }
  }

  // The zone follows what was carried out, the ledger what was answered.

  lemma AppendedOne(naming: Naming, world: World, changes: seq<Change>, change: Change)
    ensures AppliedAll(naming, world, changes + [change]) == Applied(naming, AppliedAll(naming, world, changes), change)
  {
    hide Applied;
    assert (changes + [change])[..|changes|] == changes;
  }

  lemma AttemptedZone(naming: Naming, a: World, b: World, change: Change, fate: Fate)
    requires a.zone == b.zone && a.nextId == b.nextId
    ensures var after, applied := Attempted(naming, a, change, fate), if fate.Refused? then b else Applied(naming, b, change);
      after.zone == applied.zone && after.nextId == applied.nextId
  {
  }

  lemma AttemptedLedger(naming: Naming, a: World, b: World, change: Change, fate: Fate)
    requires a.ledger == b.ledger
    ensures Attempted(naming, a, change, fate).ledger == (if fate.Answered? then Applied(naming, b, change) else b).ledger
  {
  }

  /** The zone after an execution is that of the changes that were carried out. */
  lemma {:induction false} ExecutedZone(naming: Naming, world: World, changes: seq<Change>, selected: set<Change>, fates: seq<Fate>)
    requires |fates| == |changes|
    ensures var after, applied := Executed(naming, world, changes, selected, fates), AppliedAll(naming, world, Effective(changes, selected, fates));
      after.zone == applied.zone && after.nextId == applied.nextId
  {
    if changes == [] {
    } else {
      hide Attempted, Applied, AppliedAll;
      var n := |changes| - 1;
      var front := Effective(changes[..n], selected, fates[..n]);
      ExecutedZone(naming, world, changes[..n], selected, fates[..n]);
      AppendedOne(naming, world, front, changes[n]);
      AttemptedZone(naming, Executed(naming, world, changes[..n], selected, fates[..n]), AppliedAll(naming, world, front), changes[n], fates[n]);
      assert front + [] == front;
    }
  }

  /** The ledger after an execution is that of the changes that were answered. */
  lemma {:induction false} ExecutedLedger(naming: Naming, world: World, changes: seq<Change>, selected: set<Change>, fates: seq<Fate>)
    requires |fates| == |changes|
    ensures Executed(naming, world, changes, selected, fates).ledger == AppliedAll(naming, world, Confirmed(changes, selected, fates)).ledger
  {
    if changes == [] {
    } else {
      hide Attempted, Applied, AppliedAll;
      var n := |changes| - 1;
      var front := Confirmed(changes[..n], selected, fates[..n]);
      ExecutedLedger(naming, world, changes[..n], selected, fates[..n]);
      AppendedOne(naming, world, front, changes[n]);
      AttemptedLedger(naming, Executed(naming, world, changes[..n], selected, fates[..n]), AppliedAll(naming, world, front), changes[n], fates[n]);
      assert front + [] == front;
    }
  }

  /** An execution of all changes in which every answer arrives applies exactly the plan. */
  lemma {:induction false} ExecutedInFull(naming: Naming, world: World, changes: seq<Change>, selected: set<Change>, fates: seq<Fate>)
    requires |fates| == |changes| && (forall c :: c in changes ==> c in selected) && forall f :: f in fates ==> f.Answered?
    ensures Executed(naming, world, changes, selected, fates) == AppliedAll(naming, world, changes)
  {
    if changes != [] {
      var n := |changes| - 1;
      assert changes[n] in changes && fates[n] in fates;
      ExecutedInFull(naming, world, changes[..n], selected, fates[..n]);
    }
  }

  // What a list of changes does to the zone.

  predicate Touches(change: Change, id: nat) {
    change.record.Some? && change.record.value.id == id
  }

  ghost predicate TouchOnce(changes: seq<Change>) {
    forall i, j :: 0 <= i < j < |changes| && changes[i].record.Some? && changes[j].record.Some? ==>
      changes[i].record.value.id != changes[j].record.value.id
  }

  /** Each record is touched at most once, and records and new values are there where an action needs them. */
  ghost predicate Orderly(changes: seq<Change>, nextId: nat) {
    && TouchOnce(changes)
    && (forall c :: c in changes ==>
         && (c.action == Create <==> c.record.None?) && (c.action != Delete ==> c.next.Some?)
         && (c.record.Some? ==> c.record.value.id < nextId))
  }

  lemma OrderlyFront(changes: seq<Change>, nextId: nat)
    requires Orderly(changes, nextId) && changes != []
    ensures Orderly(changes[..|changes| - 1], nextId)
  {
  }

  lemma {:induction false} NextIdGrows(naming: Naming, world: World, changes: seq<Change>)
    ensures AppliedAll(naming, world, changes).nextId >= world.nextId
  {
    if changes != [] { NextIdGrows(naming, world, changes[..|changes| - 1]); }
  }

  /** A record that no change touches stays as it is. */
  lemma {:induction false} UntouchedStays(naming: Naming, world: World, changes: seq<Change>, id: nat)
    requires Orderly(changes, world.nextId) && id < world.nextId && forall c :: c in changes ==> !Touches(c, id)
    ensures var after := AppliedAll(naming, world, changes).zone;
      (id in after <==> id in world.zone) && (id in after ==> after[id] == world.zone[id])
  {
    if changes != [] {
      var n := |changes| - 1;
      assert changes[n] in changes;
      OrderlyFront(changes, world.nextId);
      UntouchedStays(naming, world, changes[..n], id);
      NextIdGrows(naming, world, changes[..n]);
    }
  }

  /** A touched record ends up updated or gone. */
  lemma {:induction false} TouchedChanges(naming: Naming, world: World, changes: seq<Change>, c: Change)
    requires Orderly(changes, world.nextId) && c in changes && c.record.Some?
    ensures var after := AppliedAll(naming, world, changes).zone; var id := c.record.value.id;
      && (c.action == Update ==> id in after && after[id] == c.next.value)
      && (c.action == Delete ==> id !in after)
  {
    var n := |changes| - 1;
    var last := changes[n];
    OrderlyFront(changes, world.nextId);
    NextIdGrows(naming, world, changes[..n]);
    if c in changes[..n] {
      var i :| 0 <= i < n && changes[i] == c;
      TouchedChanges(naming, world, changes[..n], c);
    }
  }

  /** Each created value is in the zone under a new id. */
  lemma {:induction false} CreatedStays(naming: Naming, world: World, changes: seq<Change>, c: Change) returns (id: nat)
    requires Orderly(changes, world.nextId) && c in changes && c.action == Create
    ensures world.nextId <= id < AppliedAll(naming, world, changes).nextId
    ensures id in AppliedAll(naming, world, changes).zone && AppliedAll(naming, world, changes).zone[id] == c.next.value
  {
    var n := |changes| - 1;
    var last := changes[n];
    OrderlyFront(changes, world.nextId);
    NextIdGrows(naming, world, changes[..n]);
    assert last in changes;
    if c == last {
      id := AppliedAll(naming, world, changes[..n]).nextId;
    } else {
      id := CreatedStays(naming, world, changes[..n], c);
    }
  }

  /** Whatever has a new id was created. */
  lemma {:induction false} NewIsCreated(naming: Naming, world: World, changes: seq<Change>, id: nat) returns (c: Change)
    requires Orderly(changes, world.nextId) && (forall k :: k in world.zone ==> k < world.nextId)
    requires id >= world.nextId && id in AppliedAll(naming, world, changes).zone
    ensures c in changes && c.action == Create && AppliedAll(naming, world, changes).zone[id] == c.next.value
  {
    var n := |changes| - 1;
    var last := changes[n];
    OrderlyFront(changes, world.nextId);
    assert last in changes;
    if last.action == Create && id == AppliedAll(naming, world, changes[..n]).nextId {
      c := last;
    } else {
      c := NewIsCreated(naming, world, changes[..n], id);
    }
  }

  /** The ledger only ever gains keys of written values. */
  lemma {:induction false} LedgerGains(naming: Naming, world: World, changes: seq<Change>, key: RecordKey)
    requires key in AppliedAll(naming, world, changes).ledger && key !in world.ledger
    ensures exists c :: c in changes && c.next.Some? && c.action != Delete && KeyOf(naming, c.next.value) == key
  {
    var n := |changes| - 1;
    assert changes[n] in changes;
    if key in AppliedAll(naming, world, changes[..n]).ledger {
      LedgerGains(naming, world, changes[..n], key);
    }
  }

  function Creates(changes: seq<Change>): nat {
    if changes == [] then 0
    else Creates(changes[..|changes| - 1]) + if changes[|changes| - 1].action == Create then 1 else 0
  }

  lemma {:induction false} NextIdCounts(naming: Naming, world: World, changes: seq<Change>)
    requires forall c :: c in changes && c.action == Create ==> c.next.Some?
    ensures AppliedAll(naming, world, changes).nextId == world.nextId + Creates(changes)
  {
    if changes != [] {
      assert changes[|changes| - 1] in changes;
      NextIdCounts(naming, world, changes[..|changes| - 1]);
    }
  }

  /** The id under which the value of change `j` ends up. */
  function WrittenId(changes: seq<Change>, j: nat, nextId: nat): nat
    requires j < |changes|
  {
    if changes[j].record.Some? then changes[j].record.value.id else nextId + Creates(changes[..j])
  }

  ghost predicate Untouched(world: World, changes: seq<Change>, id: nat, data: DnsValue) {
    id in world.zone && world.zone[id] == data && forall c :: c in changes ==> !Touches(c, id)
  }

  ghost predicate WrittenAt(changes: seq<Change>, j: nat, nextId: nat, id: nat, data: DnsValue) {
    j < |changes| && changes[j].action != Delete && changes[j].next == Some(data) && id == WrittenId(changes, j, nextId)
  }

  lemma MemberOfFront(changes: seq<Change>)
    requires changes != []
    ensures forall c :: c in changes <==> c in changes[..|changes| - 1] || c == changes[|changes| - 1]
  {
  }

  /** The last change leaves the records it neither updates nor creates as they were. */
  lemma LastLeaves(naming: Naming, world: World, changes: seq<Change>, id: nat)
    requires changes != [] && Orderly(changes, world.nextId) && id in AppliedAll(naming, world, changes).zone
    requires var last, before := changes[|changes| - 1], AppliedAll(naming, world, changes[..|changes| - 1]);
      !(last.action == Update && Touches(last, id)) && !(last.action == Create && id == before.nextId)
    ensures var before := AppliedAll(naming, world, changes[..|changes| - 1]);
      id in before.zone && before.zone[id] == AppliedAll(naming, world, changes).zone[id] && !Touches(changes[|changes| - 1], id)
  {
    hide TouchOnce, KeyOf;
    assert changes[|changes| - 1] in changes;
  }

  /** Every record of the resulting zone was there before and untouched, or was written by one of the changes. */
  lemma {:induction false} Origin(naming: Naming, world: World, changes: seq<Change>, id: nat) returns (j: nat)
    requires Orderly(changes, world.nextId) && (forall k :: k in world.zone ==> k < world.nextId)
    requires id in AppliedAll(naming, world, changes).zone
    ensures var data := AppliedAll(naming, world, changes).zone[id];
      Untouched(world, changes, id, data) || WrittenAt(changes, j, world.nextId, id, data)
  {
    j := 0;
    if changes != [] {
      var n := |changes| - 1;
      var last, front := changes[n], changes[..n];
      hide TouchOnce, KeyOf;
      assert last in changes;
      OrderlyFront(changes, world.nextId);
      NextIdCounts(naming, world, front);
      MemberOfFront(changes);
      if (last.action == Update && Touches(last, id)) || (last.action == Create && id == AppliedAll(naming, world, front).nextId) {
        j := n;
      } else {
        LastLeaves(naming, world, changes, id);
        hide AppliedAll;
        j := Origin(naming, world, front, id);
        assert j < n ==> front[..j] == changes[..j];
      }
    }
  }
}
