/** The repairs of a synchronization and the store that keeps its pages: every page is accepted, and a repair that is
    complete is never reported on again. */
module GmailGenerations {
  import opened PriorityQueue
  import opened GmailSynchronization
  import opened GmailCursorLaws

  /** The repair that the store is in, and the one that was completed last. */
  datatype Scan = Scan(generation: string, completed: Option<string>)

  /** The row of the scope and the row of its scan. */
  datatype Scope = Scope(cursor: Option<Cursor>, scan: Option<Scan>)

  function StartScan(scan: Option<Scan>, generation: string): Scan {
    match scan
    case None => Scan(generation, None)
    case Some(prior) => if prior.generation == generation then prior else prior.(generation := generation)
  }

  /** What the store does with the snapshot of a page, or nothing when it refuses it. */
  function Scanned(scan: Option<Scan>, snapshot: Snapshot): Option<Scan> {
    if scan.Some? && scan.value.completed == Some(snapshot.generation) then None
    else if snapshot.phase == Start then Some(StartScan(scan, snapshot.generation))
    else if scan.None? || scan.value.generation != snapshot.generation then None
    else if snapshot.phase == Complete then Some(scan.value.(completed := Some(snapshot.generation)))
    else scan
  }

  predicate WithinLimit(page: SyncPage, limit: nat) {
    |page.messages| <= limit && (page.snapshot.Some? ==> |page.snapshot.value.seen| <= limit)
    && (page.snapshot.Some? || page.locationSet.Some? ==> 1 <= limit)
  }

  /** The rows after a page was committed, or nothing when the store refuses it. */
  function Committed(scope: Scope, page: SyncPage, limit: nat): Option<Scope> {
    if !WithinLimit(page, limit) || (page.hasMore && Some(page.cursor) == scope.cursor) then None
    else
      match page.snapshot
      case None => Some(Scope(Some(page.cursor), scope.scan))
      case Some(snapshot) =>
        match Scanned(scope.scan, snapshot)
        case None => None
        case Some(scan) => Some(Scope(Some(page.cursor), Some(scan)))
  }

  class SynchronizationStore {
    var cursor: Option<Cursor>
    var scan: Option<Scan>

    ghost function Rows(): Scope
      reads this
    {
      Scope(cursor, scan)
    }

    constructor ()
      ensures Rows() == Scope(None, None)
    {
      cursor, scan := None, None;
    }

    /** `#snapshot`. */
    method TakeSnapshot(snapshot: Snapshot) returns (ok: bool)
      modifies this`scan
      ensures ok == Scanned(old(scan), snapshot).Some?
      ensures scan == if ok then Scanned(old(scan), snapshot) else old(scan)
    {
      if scan.Some? && scan.value.completed == Some(snapshot.generation) { return false; }
      if snapshot.phase == Start {
        if scan.None? || scan.value.generation != snapshot.generation {
          scan := Some(Scan(snapshot.generation, if scan.None? then None else scan.value.completed));
        }
      } else if scan.None? || scan.value.generation != snapshot.generation {
        return false;
      }
      if snapshot.phase == Complete { scan := Some(scan.value.(completed := Some(snapshot.generation))); }
      ok := true;
    }

    /** `commit`; a refused page leaves everything as it was. */
    method Commit(page: SyncPage, limit: nat) returns (ok: bool)
      modifies this
      ensures ok == Committed(old(Rows()), page, limit).Some?
      ensures Rows() == if ok then Committed(old(Rows()), page, limit).value else old(Rows())
    {
      if |page.messages| > limit || (page.locationSet.Some? && limit < 1) { return false; }
      if page.snapshot.Some? && (limit < 1 || |page.snapshot.value.seen| > limit) { return false; }
      if page.hasMore && Some(page.cursor) == cursor { return false; }
      if page.snapshot.Some? {
        ok := TakeSnapshot(page.snapshot.value);
        if !ok { return; }
      }
      cursor := Some(page.cursor);
      ok := true;
    }
  }

  // One page.

  /** A page that begins a repair. */
  ghost predicate Begins(request: Request, page: SyncPage) {
    && page.snapshot == Some(Snapshot(request.freshId, Start, [])) && page.messages == [] && page.locationSet.None?
    && page.hasMore && page.cursor.generation == Some(request.freshId)
  }

  /** A page that goes on with what its cursor is about. */
  ghost predicate GoesOn(cursor: Cursor, page: SyncPage) {
    && (match cursor.generation
        case None => page.snapshot.None?
        case Some(g) => page.snapshot == Some(Snapshot(g, if page.hasMore then Continue else Complete, page.messages)))
    && page.cursor.generation == (if page.hasMore then cursor.generation else None)
    && (page.hasMore ==> page.cursor != cursor)
  }

  /** The page that completes a history, of a repair or of an increment, carries the cursor of an increment at its very
      beginning, with the history id that was answered. */
  lemma CompletingCursor(encoding: Encoding, provider: Provider, request: Request, cursor: Cursor, page: SyncPage)
    requires Usable(request, Some(cursor)) && Step(encoding, provider, request, Some(cursor), Page(page)) && !page.hasMore
    ensures Fetch(provider, cursor).Ok? && page.cursor ==
      Cursor(request.accountId, request.tenantId, History, Fetch(provider, cursor).value.historyId, None, None, 0, 0, 0, None)
  {
    StepCases(encoding, provider, request, cursor, page);
    var batch := Fetch(provider, cursor).value;
    var mailboxes := Observe(provider, ProviderId(cursor, batch)).value;
    var n: nat, deferLocations :| BuiltFrom(cursor, batch, mailboxes, n, deferLocations, Page(page));
  }

  lemma BuiltGoesOn(cursor: Cursor, batch: Batch, mailboxes: seq<string>, page: SyncPage)
    requires Built(cursor, batch, mailboxes, Page(page))
    ensures GoesOn(cursor, page)
  {
    var n: nat, deferLocations :| BuiltFrom(cursor, batch, mailboxes, n, deferLocations, Page(page));
    assert |Selected(cursor, ProviderId(cursor, batch), mailboxes, n)| == n;
    hide Selected;
  }

  lemma WithinRequest(encoding: Encoding, provider: Provider, request: Request, cursor: Option<Cursor>, page: SyncPage)
    requires Step(encoding, provider, request, cursor, Page(page))
    ensures |page.messages| <= request.limit && 1 <= request.limit
  {
    hide Answers, LargestFitting, Fits, Fetch, Observe;
  }

  lemma PageKinds(encoding: Encoding, provider: Provider, request: Request, cursor: Option<Cursor>, page: SyncPage)
    requires Step(encoding, provider, request, cursor, Page(page))
    ensures Begins(request, page) || (cursor.Some? && GoesOn(cursor.value, page))
    ensures WithinLimit(page, request.limit)
  {
    WithinRequest(encoding, provider, request, cursor, page);
    if Usable(request, cursor) {
      StepCases(encoding, provider, request, cursor.value, page);
      if !Restarts(provider, cursor.value) {
        hide Step, Built, Observe, Fetch, ProviderId;
        var batch := Fetch(provider, cursor.value).value;
        BuiltGoesOn(cursor.value, batch, Observe(provider, ProviderId(cursor.value, batch)).value, page);
      } else {
        hide Step, Restarts;
      }
    } else {
      NotUsable(encoding, provider, request, cursor, page);
      hide Step;
    }
  }

  lemma NotUsable(encoding: Encoding, provider: Provider, request: Request, cursor: Option<Cursor>, page: SyncPage)
    requires Step(encoding, provider, request, cursor, Page(page)) && !Usable(request, cursor)
    ensures Begin(provider, request, 0) == Page(page)
  {
  }

  // Whole runs.

  /** A fetched page that is then committed or lost, say because the claim ran out; a fetch that fails; or a rescheduling
      that forgets everything. */
  datatype Round = Fetched(provider: Provider, request: Request, outcome: Outcome, commits: bool) | Rescheduled

  function After(rounds: seq<Round>): Scope {
    if rounds == [] then Scope(None, None)
    else
      var before := After(rounds[..|rounds| - 1]);
      match rounds[|rounds| - 1]
      case Rescheduled => Scope(None, None)
      case Fetched(_, request, outcome, commits) =>
        if outcome.Page? && commits && Committed(before, outcome.page, request.limit).Some?
        then Committed(before, outcome.page, request.limit).value else before
  }

  /** Every fetch starts from the cursor that is stored. */
  ghost predicate Runs(encoding: Encoding, rounds: seq<Round>) {
    rounds == [] ||
    (var front, last := rounds[..|rounds| - 1], rounds[|rounds| - 1];
     Runs(encoding, front) && (last.Fetched? ==> Step(encoding, last.provider, last.request, After(front).cursor, last.outcome)))
  }

  /** Random ids are never repeated. */
  ghost predicate FreshIds(rounds: seq<Round>) {
    forall i, j :: 0 <= i < j < |rounds| && rounds[i].Fetched? && rounds[j].Fetched? ==> rounds[i].request.freshId != rounds[j].request.freshId
  }

  ghost predicate IdOfRound(rounds: seq<Round>, g: string) {
    exists i :: 0 <= i < |rounds| && rounds[i].Fetched? && rounds[i].request.freshId == g
  }

  ghost predicate Completes(round: Round, g: string) {
    round.Fetched? && round.commits && round.outcome.Page? && round.outcome.page.snapshot.Some?
    && round.outcome.page.snapshot.value.phase == Complete && round.outcome.page.snapshot.value.generation == g
  }

  ghost predicate CompletedIn(rounds: seq<Round>, g: string) {
    exists i :: 0 <= i < |rounds| && Completes(rounds[i], g)
  }

  /** The repair of the stored cursor is the one the store is in, and is not complete; and all repairs are from this run. */
  ghost predicate InStep(rounds: seq<Round>) {
    var scope := After(rounds);
    && (scope.cursor.Some? && scope.cursor.value.generation.Some? ==>
         var g := scope.cursor.value.generation.value;
         scope.scan.Some? && scope.scan.value.generation == g && scope.scan.value.completed != Some(g) && !CompletedIn(rounds, g))
    && (scope.scan.Some? ==> IdOfRound(rounds, scope.scan.value.generation))
    && (scope.scan.Some? && scope.scan.value.completed.Some? ==> IdOfRound(rounds, scope.scan.value.completed.value))
    && (forall g :: CompletedIn(rounds, g) ==> IdOfRound(rounds, g))
  }

  lemma OneMoreRound(rounds: seq<Round>, g: string)
    requires rounds != []
    ensures var front, last := rounds[..|rounds| - 1], rounds[|rounds| - 1];
      && (CompletedIn(rounds, g) <==> CompletedIn(front, g) || Completes(last, g))
      && (IdOfRound(rounds, g) <==> IdOfRound(front, g) || (last.Fetched? && last.request.freshId == g))
  {
    var front := rounds[..|rounds| - 1];
    assert forall i :: 0 <= i < |front| ==> front[i] == rounds[i];
    if CompletedIn(rounds, g) {
      var i :| 0 <= i < |rounds| && Completes(rounds[i], g);
      if i < |front| { assert Completes(front[i], g); }
    }
    if CompletedIn(front, g) {
      var i :| 0 <= i < |front| && Completes(front[i], g);
      assert Completes(rounds[i], g);
    }
    if Completes(rounds[|rounds| - 1], g) { assert CompletedIn(rounds, g); }
  }

  /** A page that was just fetched is accepted. */
  lemma Accepted(encoding: Encoding, rounds: seq<Round>, provider: Provider, request: Request, page: SyncPage)
    requires InStep(rounds) && !IdOfRound(rounds, request.freshId)
    requires Step(encoding, provider, request, After(rounds).cursor, Page(page))
    ensures Committed(After(rounds), page, request.limit).Some?
  {
    hide Step, After, CompletedIn, IdOfRound;
    PageKinds(encoding, provider, request, After(rounds).cursor, page);
  }

  lemma StaysInStep(encoding: Encoding, rounds: seq<Round>)
    requires rounds != [] && Runs(encoding, rounds) && FreshIds(rounds) && InStep(rounds[..|rounds| - 1])
    ensures InStep(rounds)
  {
    hide Step, Runs, CompletedIn, IdOfRound, Committed, Scanned, Begins, GoesOn;
    var front, last := rounds[..|rounds| - 1], rounds[|rounds| - 1];
    forall g
      ensures CompletedIn(rounds, g) <==> CompletedIn(front, g) || Completes(last, g)
      ensures IdOfRound(rounds, g) <==> IdOfRound(front, g) || (last.Fetched? && last.request.freshId == g)
    {
      OneMoreRound(rounds, g);
    }
    if last.Fetched? {
      FreshLast(rounds);
      if last.outcome.Page? {
        RunsFacts(encoding, rounds);
        KeptInStep(encoding, rounds);
      }
    }
  }

  lemma RunsFacts(encoding: Encoding, rounds: seq<Round>)
    requires rounds != [] && Runs(encoding, rounds)
    ensures Runs(encoding, rounds[..|rounds| - 1])
    ensures rounds[|rounds| - 1].Fetched? ==>
      Step(encoding, rounds[|rounds| - 1].provider, rounds[|rounds| - 1].request, After(rounds[..|rounds| - 1]).cursor, rounds[|rounds| - 1].outcome)
  {
  }

  lemma FreshLast(rounds: seq<Round>)
    requires rounds != [] && FreshIds(rounds) && rounds[|rounds| - 1].Fetched?
    ensures FreshIds(rounds[..|rounds| - 1]) && !IdOfRound(rounds[..|rounds| - 1], rounds[|rounds| - 1].request.freshId)
  {
  }

  lemma KeptInStep(encoding: Encoding, rounds: seq<Round>)
    requires rounds != [] && rounds[|rounds| - 1].Fetched? && rounds[|rounds| - 1].outcome.Page?
    requires var front, last := rounds[..|rounds| - 1], rounds[|rounds| - 1];
      && InStep(front) && !IdOfRound(front, last.request.freshId)
      && Step(encoding, last.provider, last.request, After(front).cursor, last.outcome)
      && (forall g :: CompletedIn(rounds, g) <==> CompletedIn(front, g) || Completes(last, g))
      && (forall g :: IdOfRound(rounds, g) <==> IdOfRound(front, g) || last.request.freshId == g)
    ensures InStep(rounds)
  {
    hide Step, CompletedIn, IdOfRound;
    var front, last := rounds[..|rounds| - 1], rounds[|rounds| - 1];
    PageKinds(encoding, last.provider, last.request, After(front).cursor, last.outcome.page);
  }

  lemma {:induction false} AlwaysInStep(encoding: Encoding, rounds: seq<Round>)
    requires Runs(encoding, rounds) && FreshIds(rounds)
    ensures InStep(rounds)
  {
    if rounds != [] {
      hide Step, InStep, After;
      RunsFacts(encoding, rounds);
      assert FreshIds(rounds[..|rounds| - 1]);
      AlwaysInStep(encoding, rounds[..|rounds| - 1]);
      StaysInStep(encoding, rounds);
    }
  }

  /** Whatever the provider answers, and whichever pages are lost on the way, the store never refuses a page. */
  lemma StoreNeverRefuses(encoding: Encoding, rounds: seq<Round>, k: nat)
    requires Runs(encoding, rounds) && FreshIds(rounds) && k < |rounds| && rounds[k].Fetched? && rounds[k].outcome.Page?
    ensures Committed(After(rounds[..k]), rounds[k].outcome.page, rounds[k].request.limit).Some?
  {
    hide Step, InStep, After, Committed;
    RunsPrefix(encoding, rounds, k + 1);
    var upto := rounds[..k + 1];
    assert upto[..k] == rounds[..k];
    RunsFacts(encoding, upto);
    FreshLast(upto);
    AlwaysInStep(encoding, rounds[..k]);
    Accepted(encoding, rounds[..k], rounds[k].provider, rounds[k].request, rounds[k].outcome.page);
  }

  lemma {:induction false} RunsPrefix(encoding: Encoding, rounds: seq<Round>, k: nat)
    requires Runs(encoding, rounds) && k <= |rounds|
    ensures Runs(encoding, rounds[..k])
    decreases |rounds|
  {
    hide Step, After;
    if k < |rounds| {
      RunsPrefix(encoding, rounds[..|rounds| - 1], k);
      assert rounds[..|rounds| - 1][..k] == rounds[..k];
    } else {
      assert rounds[..k] == rounds;
    }
  }

  /** Once a page that completes a repair is stored, no later page reports to that repair. */
  lemma CompleteIsFinal(encoding: Encoding, rounds: seq<Round>, i: nat, j: nat, g: string)
    requires Runs(encoding, rounds) && FreshIds(rounds) && i < j < |rounds| && Completes(rounds[i], g)
    requires rounds[j].Fetched? && rounds[j].outcome.Page? && rounds[j].outcome.page.snapshot.Some?
    ensures rounds[j].outcome.page.snapshot.value.generation != g
  {
    hide Step, After, Runs;
    RunsPrefix(encoding, rounds, j + 1);
    var upto := rounds[..j + 1];
    assert upto[..j] == rounds[..j] && upto[j] == rounds[j];
    RunsFacts(encoding, upto);
    FreshLast(upto);
    AlwaysInStep(encoding, rounds[..j]);
    assert rounds[..j][i] == rounds[i] && CompletedIn(rounds[..j], g);
    PageKinds(encoding, rounds[j].provider, rounds[j].request, After(rounds[..j]).cursor, rounds[j].outcome.page);
  }
}
