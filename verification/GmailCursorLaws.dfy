/** What the synchronization cursor guarantees against any provider, however its answers change. */
module GmailCursorLaws {
  import opened PriorityQueue
  import opened GmailSynchronization

  predicate Restarts(provider: Provider, cursor: Cursor) {
    Fetch(provider, cursor).HttpError? && MustRestart(cursor, Fetch(provider, cursor).status)
  }

  /** A page that is not a restart was built from the batch at hand. */
  lemma StepCases(encoding: Encoding, provider: Provider, request: Request, cursor: Cursor, page: SyncPage)
    requires Usable(request, Some(cursor)) && Step(encoding, provider, request, Some(cursor), Page(page))
    ensures Restarts(provider, cursor) ==> Restarted(provider, request, cursor) == Page(page)
    ensures !Restarts(provider, cursor) ==> Fetch(provider, cursor).Ok?
    ensures !Restarts(provider, cursor) ==> Observe(provider, ProviderId(cursor, Fetch(provider, cursor).value)).Ok?
    ensures !Restarts(provider, cursor) ==> var batch := Fetch(provider, cursor).value;
      Built(cursor, batch, Observe(provider, ProviderId(cursor, batch)).value, Page(page))
  {
  }

  /** The store refuses a page that promises more under the same cursor; no step ever returns one. */
  lemma CursorAlwaysProgresses(encoding: Encoding, provider: Provider, request: Request, cursor: Cursor, page: SyncPage)
    requires Usable(request, Some(cursor)) && Step(encoding, provider, request, Some(cursor), Page(page))
    requires page.hasMore && !Restarts(provider, cursor)
    ensures page.cursor != cursor
  {
    StepCases(encoding, provider, request, cursor, page);
    var batch := Fetch(provider, cursor).value;
    var mailboxes := Observe(provider, ProviderId(cursor, batch)).value;
    var n: nat, deferLocations :| BuiltFrom(cursor, batch, mailboxes, n, deferLocations, Page(page));
  }

  /** Every page a step returns fits the limit of the store. */
  lemma PagesFit(encoding: Encoding, provider: Provider, request: Request, cursor: Cursor, page: SyncPage)
    requires Usable(request, Some(cursor)) && Step(encoding, provider, request, Some(cursor), Page(page)) && !Restarts(provider, cursor)
    ensures encoding.pageBytes(page) <= MAX_PAGE_BYTES
  {
    StepCases(encoding, provider, request, cursor, page);
  }

  /** The checkpoint only changes on the page that completes a history, when no page, message or location set of
      it is outstanding, or when a repair starts from a checkpoint of its own. */
  lemma CheckpointMovesOnlyOnCompletion(encoding: Encoding, provider: Provider, request: Request, cursor: Cursor, page: SyncPage)
    requires Usable(request, Some(cursor)) && Step(encoding, provider, request, Some(cursor), Page(page))
    requires page.cursor.historyId != cursor.historyId && !Restarts(provider, cursor)
    ensures !page.hasMore && cursor.stage == History
    ensures var batch := Fetch(provider, cursor).value;
      && batch.nextToken.None? && !MoreMessages(cursor, batch) && page.cursor.historyId == batch.historyId
      && (ProviderId(cursor, batch).Some? ==>
           page.locationSet == Some(LocationSet(ProviderId(cursor, batch).value, Observe(provider, ProviderId(cursor, batch)).value)))
  {
    StepCases(encoding, provider, request, cursor, page);
    var batch := Fetch(provider, cursor).value;
    var mailboxes := Observe(provider, ProviderId(cursor, batch)).value;
    var n: nat, deferLocations :| BuiltFrom(cursor, batch, mailboxes, n, deferLocations, Page(page));
  }

  // Repairs against a provider that keeps failing.

  /** Successive steps, each against whatever the provider answers at the time; none of them completes. */
  ghost predicate Unfinished(encoding: Encoding, providers: seq<Provider>, requests: seq<Request>, cursor: Cursor, pages: seq<SyncPage>) {
    |providers| == |requests| == |pages| &&
    (pages != [] ==>
      && Usable(requests[0], Some(cursor)) && Step(encoding, providers[0], requests[0], Some(cursor), Page(pages[0]))
      && pages[0].hasMore && Unfinished(encoding, providers[1..], requests[1..], pages[0].cursor, pages[1..]))
  }

  function RestartCount(providers: seq<Provider>, cursor: Cursor, pages: seq<SyncPage>): nat
    requires |providers| == |pages|
  {
    if pages == [] then 0
    else (if Restarts(providers[0], cursor) then 1 else 0) + RestartCount(providers[1..], pages[0].cursor, pages[1..])
  }

  lemma RestartStep(encoding: Encoding, provider: Provider, request: Request, cursor: Cursor, page: SyncPage)
    requires Usable(request, Some(cursor)) && Step(encoding, provider, request, Some(cursor), Page(page)) && page.hasMore
    requires cursor.generation.Some? && cursor.repairRestarts <= MAX_REPAIR_RESTARTS
    ensures page.cursor.generation.Some? && page.cursor.repairRestarts <= MAX_REPAIR_RESTARTS
    ensures page.cursor.repairRestarts == cursor.repairRestarts + if Restarts(provider, cursor) then 1 else 0
    ensures Restarts(provider, cursor) ==> provider.profile == Ok(page.cursor.historyId)
    ensures !Restarts(provider, cursor) ==> page.cursor.historyId == cursor.historyId
  {
    StepCases(encoding, provider, request, cursor, page);
    if !Restarts(provider, cursor) {
      var batch := Fetch(provider, cursor).value;
      var mailboxes := Observe(provider, ProviderId(cursor, batch)).value;
      var n: nat, deferLocations :| BuiltFrom(cursor, batch, mailboxes, n, deferLocations, Page(page));
    }
  }

  /** One repair starts over at most `MAX_REPAIR_RESTARTS` times, whatever the provider answers; the counter in
      the cursor is exact. */
  lemma {:induction false} RepairRestartsBounded(encoding: Encoding, providers: seq<Provider>, requests: seq<Request>, cursor: Cursor, pages: seq<SyncPage>)
    requires Unfinished(encoding, providers, requests, cursor, pages)
    requires cursor.generation.Some? && cursor.repairRestarts <= MAX_REPAIR_RESTARTS
    ensures cursor.repairRestarts + RestartCount(providers, cursor, pages) <= MAX_REPAIR_RESTARTS
    ensures pages != [] ==> pages[|pages| - 1].cursor.repairRestarts == cursor.repairRestarts + RestartCount(providers, cursor, pages)
    decreases |pages|
  {
    hide Step, Restarts;
    if pages != [] {
      RestartStep(encoding, providers[0], requests[0], cursor, pages[0]);
      RepairRestartsBounded(encoding, providers[1..], requests[1..], pages[0].cursor, pages[1..]);
      if |pages| > 1 { assert pages[1..][|pages| - 2] == pages[|pages| - 1]; }
    }
  }

  /** The checkpoint that a synchronization which began at `checkpoint` works from: the one its latest restart read, or
      the first one. */
  function LatestRead(providers: seq<Provider>, cursor: Cursor, pages: seq<SyncPage>, checkpoint: string): string
    requires |providers| == |pages|
  {
    if pages == [] then checkpoint
    else
      var read := if Restarts(providers[0], cursor) && providers[0].profile.Ok? then providers[0].profile.value else checkpoint;
      LatestRead(providers[1..], pages[0].cursor, pages[1..], read)
  }

  /** Against any provider, all the way from the start of a repair until it completes, the cursor keeps the checkpoint
      that was read before the listing began, by the repair itself or by its latest restart. */
  lemma {:induction false} CheckpointIsReadFirst(encoding: Encoding, providers: seq<Provider>, requests: seq<Request>, cursor: Cursor, pages: seq<SyncPage>)
    requires Unfinished(encoding, providers, requests, cursor, pages)
    requires cursor.generation.Some? && cursor.repairRestarts <= MAX_REPAIR_RESTARTS
    ensures pages != [] ==> pages[|pages| - 1].cursor.historyId == LatestRead(providers, cursor, pages, cursor.historyId)
    ensures pages != [] ==> pages[|pages| - 1].cursor.generation.Some? && pages[|pages| - 1].cursor.repairRestarts <= MAX_REPAIR_RESTARTS
    decreases |pages|
  {
    hide Step, Restarts;
    if pages != [] {
      RestartStep(encoding, providers[0], requests[0], cursor, pages[0]);
      CheckpointIsReadFirst(encoding, providers[1..], requests[1..], pages[0].cursor, pages[1..]);
      if |pages| > 1 { assert pages[1..][|pages| - 2] == pages[|pages| - 1]; }
    }
  }

  /** So when a repair that began with `start` completes with `last`, the new checkpoint is the one of the history page
      that came last, and that history was asked for since the id read before the listing. */
  lemma RepairCompletes(encoding: Encoding, first: Provider, begun: Request, start: SyncPage, providers: seq<Provider>, requests: seq<Request>,
                        pages: seq<SyncPage>, provider: Provider, request: Request, last: SyncPage)
    requires Begin(first, begun, 0) == Page(start) && Unfinished(encoding, providers, requests, start.cursor, pages)
    requires var cursor := if pages == [] then start.cursor else pages[|pages| - 1].cursor;
      Usable(request, Some(cursor)) && Step(encoding, provider, request, Some(cursor), Page(last)) && !last.hasMore
    ensures var cursor := if pages == [] then start.cursor else pages[|pages| - 1].cursor;
      && first.profile.Ok? && cursor.stage == History
      && cursor.historyId == LatestRead(providers, start.cursor, pages, first.profile.value)
      && Fetch(provider, cursor).Ok? && last.cursor.historyId == Fetch(provider, cursor).value.historyId
      && (cursor.pending.None? ==> Fetch(provider, cursor) == provider.history(LatestRead(providers, start.cursor, pages, first.profile.value), cursor.pageToken))
  {
    var cursor := if pages == [] then start.cursor else pages[|pages| - 1].cursor;
    CheckpointIsReadFirst(encoding, providers, requests, start.cursor, pages);
    hide Unfinished, LatestRead;
    StepCases(encoding, provider, request, cursor, last);
    if !Restarts(provider, cursor) {
      var batch := Fetch(provider, cursor).value;
      var mailboxes := Observe(provider, ProviderId(cursor, batch)).value;
      var n: nat, deferLocations :| BuiltFrom(cursor, batch, mailboxes, n, deferLocations, Page(last));
    }
  }

  // What the errors of the provider mean.

  /** The error of the listing or of the history that this step asks for, if it asks for one and there is one. */
  ghost predicate Answered(provider: Provider, cursor: Cursor, status: int) {
    && cursor.pending.None?
    && (cursor.stage == Full ==> provider.list(cursor.pageToken) == HttpError(status))
    && (cursor.stage == History ==> provider.history(cursor.historyId, cursor.pageToken) == HttpError(status))
  }

  /** A history or a page token that is gone (404, or 400 for a page that was asked for by token) starts a repair: a new
      generation with the history id of now. A fourth repair in a row fails, and so does every other error, without a page. */
  lemma ErrorsByStatus(encoding: Encoding, provider: Provider, request: Request, cursor: Cursor, outcome: Outcome, status: int)
    requires Usable(request, Some(cursor)) && request.limit >= 1 && Step(encoding, provider, request, Some(cursor), outcome)
    requires Answered(provider, cursor, status)
    ensures var gone := status == 404 || (status == 400 && cursor.pageToken.Some? && cursor.pageToken.value != "");
      var restarts := if cursor.generation.Some? then cursor.repairRestarts + 1 else 0;
      && (!gone ==> outcome == Failed(Http(status)))
      && (gone && restarts > 3 ==> outcome == Failed(ProviderFailed))
      && (gone && restarts <= 3 && provider.profile.HttpError? ==> outcome == Failed(Http(provider.profile.status)))
      && (gone && restarts <= 3 && provider.profile.Ok? ==> outcome == Page(SyncPage([], None, Some(Snapshot(request.freshId, Start, [])),
           Cursor(request.accountId, request.tenantId, Full, provider.profile.value, Some(request.freshId), None, restarts, 0, 0, None), true)))
  {
    hide Answers, LargestFitting, Fits;
  }

  /** A message that is gone settles as one that is in no mailbox, and the cursor moves past it; any other error about a
      message fails the step. */
  lemma GoneMessageSettles(encoding: Encoding, provider: Provider, request: Request, cursor: Cursor, outcome: Outcome, id: string, status: int)
    requires Usable(request, Some(cursor)) && request.limit >= 1 && Step(encoding, provider, request, Some(cursor), outcome)
    requires Fetch(provider, cursor).Ok? && ProviderId(cursor, Fetch(provider, cursor).value) == Some(id)
    requires provider.observe(id) == HttpError(status)
    ensures status != 404 ==> outcome == Failed(Http(status))
    ensures status == 404 && outcome.Page? ==>
      outcome.page.messages == [] && outcome.page.locationSet == Some(LocationSet(id, [])) && outcome.page.cursor.pending.None?
  {
    hide LargestFitting, Fits;
    if status == 404 && outcome.Page? {
      StepCases(encoding, provider, request, cursor, outcome.page);
      var batch := Fetch(provider, cursor).value;
      var n: nat, deferLocations :| BuiltFrom(cursor, batch, [], n, deferLocations, outcome);
      assert n == 0;
    }
  }
}
