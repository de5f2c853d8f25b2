/** The resumable cursor of Gmail synchronization: one call of `fetchPage` is one step of a state machine that
    first lists every message of the account and then follows its history. */
module GmailSynchronization {
  import opened PriorityQueue

  const MAX_REPAIR_RESTARTS := 3
  const MAX_PAGE_BYTES := 2 * 1024 * 1024

  datatype Stage = Full | History

  datatype Pending = Pending(id: string, nextToken: Option<string>, historyId: string, moreMessages: bool)

  datatype Cursor = Cursor(
    accountId: string, tenantId: string, stage: Stage, historyId: string, generation: Option<string>,
    pageToken: Option<string>, repairRestarts: nat, messageOffset: nat, labelOffset: nat, pending: Option<Pending>)

  /** One message seen in one mailbox. */
  datatype Location = Location(id: string, mailbox: string)

  datatype LocationSet = LocationSet(id: string, mailboxes: seq<string>)

  datatype Phase = Start | Continue | Complete

  datatype Snapshot = Snapshot(generation: string, phase: Phase, seen: seq<Location>)

  datatype SyncPage = SyncPage(
    messages: seq<Location>, locationSet: Option<LocationSet>, snapshot: Option<Snapshot>, cursor: Cursor, hasMore: bool)

  datatype Response<+T> = Ok(value: T) | HttpError(status: int)

  datatype SyncError = InvalidData | ProviderFailed | Http(status: int)

  datatype Outcome = Page(page: SyncPage) | Failed(error: SyncError)

  datatype Batch = Batch(ids: seq<string>, nextToken: Option<string>, historyId: string)

  /** What the Gmail API answers during one step; `observe` gives the mailboxes a message is in. A listing has
      no history id of its own. */
  datatype Provider = Provider(
    profile: Response<string>,
    list: Option<string> -> Response<(seq<string>, Option<string>)>,
    history: (string, Option<string>) -> Response<Batch>,
    observe: string -> Response<seq<string>>)

  datatype Request = Request(accountId: string, tenantId: string, limit: nat, freshId: string)

  /** Encoded sizes of one message summary and of a whole page. */
  datatype Encoding = Encoding(messageBytes: Location -> nat, pageBytes: SyncPage -> nat)

  /** `begin`: the history id is read before anything is listed. */
  function Begin(provider: Provider, request: Request, repairRestarts: nat): Outcome {
    if repairRestarts > MAX_REPAIR_RESTARTS then Failed(ProviderFailed)
    else
      match provider.profile
      case HttpError(status) => Failed(Http(status))
      case Ok(historyId) =>
        var cursor := Cursor(request.accountId, request.tenantId, Full, historyId, Some(request.freshId),
                             None, repairRestarts, 0, 0, None);
        Page(SyncPage([], None, Some(Snapshot(request.freshId, Start, [])), cursor, true))
  }

  /** The ids this step works on: those of a page, or the one message left unfinished. */
  function Fetch(provider: Provider, cursor: Cursor): Response<Batch> {
    match cursor.pending
    case Some(pending) => Ok(Batch([pending.id], pending.nextToken, pending.historyId))
    case None =>
      match cursor.stage
      case Full =>
        (match provider.list(cursor.pageToken)
         case Ok(listed) => Ok(Batch(listed.0, listed.1, cursor.historyId))
         case HttpError(status) => HttpError(status))
      case History => provider.history(cursor.historyId, cursor.pageToken)
  }

  function ProviderId(cursor: Cursor, batch: Batch): Option<string> {
    match cursor.pending
    case Some(pending) => Some(pending.id)
    case None => if cursor.messageOffset < |batch.ids| then Some(batch.ids[cursor.messageOffset]) else None
  }

  function MoreMessages(cursor: Cursor, batch: Batch): bool {
    match cursor.pending
    case Some(pending) => pending.moreMessages
    case None => cursor.messageOffset + 1 < |batch.ids|
  }

  /** The next cursor once the current message is finished; `Complete` when there is nothing left at all. */
  function NextCursor(cursor: Cursor, batch: Batch): (Cursor, bool) {
    var next := cursor.(pending := None);
    if MoreMessages(cursor, batch) then (next.(messageOffset := cursor.messageOffset + 1, labelOffset := 0), false)
    else if batch.nextToken.Some? then (next.(pageToken := batch.nextToken, messageOffset := 0, labelOffset := 0), false)
    else if cursor.stage == Full then (next.(stage := History, pageToken := None, messageOffset := 0, labelOffset := 0), false)
    else (next.(historyId := batch.historyId, pageToken := None, generation := None, repairRestarts := 0,
                messageOffset := 0, labelOffset := 0), true)
  }

  /** `buildPage`: `mailboxes` is what was observed of the message (nothing when it is gone), `selected` the
      locations that fit. */
  function BuildPage(cursor: Cursor, batch: Batch, mailboxes: seq<string>, selected: seq<Location>, deferLocations: bool): Outcome {
    var id := ProviderId(cursor, batch);
    var moreLabels := deferLocations || cursor.labelOffset + |selected| < |mailboxes|;
    var unfinished := moreLabels && id.Some?;
    if !unfinished && !MoreMessages(cursor, batch) && batch.nextToken.Some? && batch.nextToken == cursor.pageToken then Failed(InvalidData)
    else
      var (next, complete) :=
        if unfinished then
          (cursor.(labelOffset := cursor.labelOffset + |selected|,
                   pending := Some(Pending(id.value, batch.nextToken, batch.historyId, MoreMessages(cursor, batch)))), false)
        else NextCursor(cursor, batch);
      Page(SyncPage(
        selected,
        if id.Some? && !moreLabels then Some(LocationSet(id.value, mailboxes)) else None,
        if cursor.generation.Some?
        then Some(Snapshot(cursor.generation.value, if complete then Complete else Continue, selected)) else None,
        next, !complete))
  }

  function LocationsOf(id: string, mailboxes: seq<string>): (locations: seq<Location>)
    ensures |locations| == |mailboxes|
    ensures forall i :: 0 <= i < |mailboxes| ==> locations[i] == Location(id, mailboxes[i])
  {
    seq(|mailboxes|, i requires 0 <= i < |mailboxes| => Location(id, mailboxes[i]))
  }

  /** The first `n` locations that are still due. */
  function Selected(cursor: Cursor, id: Option<string>, mailboxes: seq<string>, n: nat): seq<Location>
    requires id.None? ==> n == 0
    requires id.Some? ==> n == 0 || cursor.labelOffset + n <= |mailboxes|
  {
    if id.None? || n == 0 then [] else LocationsOf(id.value, mailboxes[cursor.labelOffset..cursor.labelOffset + n])
  }

  lemma NothingSelected(encoding: Encoding, cursor: Cursor, id: Option<string>, mailboxes: seq<string>)
    ensures Selected(cursor, id, mailboxes, 0) == [] && TotalBytes(encoding, []) == 0
  {
  }

  lemma TotalBytesNext(encoding: Encoding, messages: seq<Location>, message: Location)
    ensures TotalBytes(encoding, messages + [message]) == TotalBytes(encoding, messages) + encoding.messageBytes(message)
  {
    assert (messages + [message])[..|messages|] == messages;
  }

  lemma SelectedNext(cursor: Cursor, id: Option<string>, mailboxes: seq<string>, n: nat)
    requires id.Some? && cursor.labelOffset + n < |mailboxes|
    ensures Selected(cursor, id, mailboxes, n + 1) ==
      Selected(cursor, id, mailboxes, n) + [Location(id.value, mailboxes[cursor.labelOffset + n])]
  {
  }

  lemma SelectedFront(cursor: Cursor, id: Option<string>, mailboxes: seq<string>, n: nat, k: nat)
    requires id.Some? && 0 < k <= n && cursor.labelOffset + n <= |mailboxes|
    ensures Selected(cursor, id, mailboxes, n)[..k] == Selected(cursor, id, mailboxes, k)
  {
  }

  /** A page holding the first `n` due locations, with the location set put off if `deferLocations`. A message
      with locations left contributes at least one; the set is only put off behind a location. */
  ghost predicate Admissible(cursor: Cursor, batch: Batch, mailboxes: seq<string>, n: nat, deferLocations: bool) {
    && (ProviderId(cursor, batch).None? ==> n == 0)
    && (n == 0 || cursor.labelOffset + n <= |mailboxes|)
    && (ProviderId(cursor, batch).Some? && cursor.labelOffset < |mailboxes| ==> n > 0)
    && (deferLocations ==> n > 0)
  }

  /** What a step may answer once the ids are known: a page within the limit, or a failure. */
  ghost predicate Answers(encoding: Encoding, cursor: Cursor, batch: Batch, mailboxes: seq<string>, outcome: Outcome) {
    outcome.Page? ==> encoding.pageBytes(outcome.page) <= MAX_PAGE_BYTES && Built(cursor, batch, mailboxes, outcome)
  }

  ghost predicate Built(cursor: Cursor, batch: Batch, mailboxes: seq<string>, outcome: Outcome) {
    exists n: nat, deferLocations: bool :: BuiltFrom(cursor, batch, mailboxes, n, deferLocations, outcome)
  }

  ghost predicate BuiltFrom(cursor: Cursor, batch: Batch, mailboxes: seq<string>, n: nat, deferLocations: bool, outcome: Outcome) {
    && Admissible(cursor, batch, mailboxes, n, deferLocations)
    && outcome == BuildPage(cursor, batch, mailboxes, Selected(cursor, ProviderId(cursor, batch), mailboxes, n), deferLocations)
  }

  /** Every due message fits a page, a page with one of them (or with none when none is due) fits the limit,
      and the provider does not hand out the page token it was given. */
  ghost predicate Fits(encoding: Encoding, cursor: Cursor, batch: Batch, mailboxes: seq<string>) {
    var id := ProviderId(cursor, batch);
    && !(batch.nextToken.Some? && batch.nextToken == cursor.pageToken)
    && (forall mailbox :: id.Some? && mailbox in mailboxes ==> encoding.messageBytes(Location(id.value, mailbox)) <= MAX_PAGE_BYTES)
    && var smallest :=
         if id.Some? && cursor.labelOffset < |mailboxes|
         then BuildPage(cursor, batch, mailboxes, Selected(cursor, id, mailboxes, 1), true)
         else BuildPage(cursor, batch, mailboxes, [], false);
       smallest.Page? ==> encoding.pageBytes(smallest.page) <= MAX_PAGE_BYTES
  }

  ghost function TotalBytes(encoding: Encoding, messages: seq<Location>): nat {
    if messages == [] then 0
    else TotalBytes(encoding, messages[..|messages| - 1]) + encoding.messageBytes(messages[|messages| - 1])
  }

  /** `n` is the greatest number of due locations that the request and the page have room for. */
  ghost predicate Filled(encoding: Encoding, cursor: Cursor, id: Option<string>, mailboxes: seq<string>, limit: nat, n: nat) {
    && n <= limit && (id.None? ==> n == 0) && (n == 0 || cursor.labelOffset + n <= |mailboxes|)
    && TotalBytes(encoding, Selected(cursor, id, mailboxes, n)) <= MAX_PAGE_BYTES
    && (n == limit || id.None? || cursor.labelOffset + n >= |mailboxes|
        || TotalBytes(encoding, Selected(cursor, id, mailboxes, n + 1)) > MAX_PAGE_BYTES)
  }

  /** Fills a page with due locations until the limit of the request or of the page is reached. */
  method FillPage(encoding: Encoding, cursor: Cursor, batch: Batch, mailboxes: seq<string>, limit: nat)
    returns (messages: Option<seq<Location>>)
    requires limit >= 1 && (ProviderId(cursor, batch).None? ==> mailboxes == [])
    ensures messages.Some? ==> Admissible(cursor, batch, mailboxes, |messages.value|, false)
    ensures messages.Some? ==> messages.value == Selected(cursor, ProviderId(cursor, batch), mailboxes, |messages.value|)
    ensures messages.Some? ==> Filled(encoding, cursor, ProviderId(cursor, batch), mailboxes, limit, |messages.value|)
    ensures Fits(encoding, cursor, batch, mailboxes) ==> messages.Some?
  {
    var id := ProviderId(cursor, batch);
    var filled: seq<Location> := [];
    var summaryBytes := 0;
    hide Selected, TotalBytes, BuildPage, LocationsOf;
    NothingSelected(encoding, cursor, id, mailboxes);
    if id.None? || cursor.labelOffset >= |mailboxes| { return Some([]); }
    var end := if cursor.labelOffset + limit < |mailboxes| then cursor.labelOffset + limit else |mailboxes|;
    for i := cursor.labelOffset to end
      invariant |filled| == i - cursor.labelOffset
      invariant filled == Selected(cursor, id, mailboxes, |filled|)
      invariant summaryBytes == TotalBytes(encoding, filled) <= MAX_PAGE_BYTES
    {
      var message := Location(id.value, mailboxes[i]);
      var size := encoding.messageBytes(message);
      if size > MAX_PAGE_BYTES { return None; }
      SelectedNext(cursor, id, mailboxes, |filled|);
      TotalBytesNext(encoding, filled, message);
      if summaryBytes + size > MAX_PAGE_BYTES { break; }
      filled := filled + [message];
      summaryBytes := summaryBytes + size;
    }
    return Some(filled);
  }

  /** What is left of `n` messages after a page with them was cut in half `k` times. */
  function Halved(n: nat, k: nat): (r: nat)
    ensures r <= n && (n > 0 ==> r > 0)
  {
    if k == 0 then n else (Halved(n, k - 1) + 1) / 2
  }

  predicate TooLarge(encoding: Encoding, outcome: Outcome) {
    outcome.Page? && encoding.pageBytes(outcome.page) > MAX_PAGE_BYTES
  }

  function PageOf(cursor: Cursor, batch: Batch, mailboxes: seq<string>, n: nat, deferLocations: bool): Outcome
    requires ProviderId(cursor, batch).None? ==> n == 0
    requires n == 0 || cursor.labelOffset + n <= |mailboxes|
  {
    BuildPage(cursor, batch, mailboxes, Selected(cursor, ProviderId(cursor, batch), mailboxes, n), deferLocations)
  }

  /** A page is cut in half until it fits, and no further; a page of one message, before that, puts off its location set. */
  ghost predicate CutDown(encoding: Encoding, cursor: Cursor, batch: Batch, mailboxes: seq<string>, n: nat, k: nat, deferLocations: bool)
    requires ProviderId(cursor, batch).None? ==> n == 0
    requires n == 0 || cursor.labelOffset + n <= |mailboxes|
  {
    && (forall j :: 0 <= j < k ==> Halved(n, j) > 1 && TooLarge(encoding, PageOf(cursor, batch, mailboxes, Halved(n, j), false)))
    && (deferLocations ==> Halved(n, k) == 1 && TooLarge(encoding, PageOf(cursor, batch, mailboxes, 1, false)))
  }

  /** The page starts with everything there is room for and is cut down as far as it takes to fit the limit. */
  ghost predicate LargestFitting(encoding: Encoding, cursor: Cursor, batch: Batch, mailboxes: seq<string>, limit: nat, outcome: Outcome) {
    exists n: nat, k: nat, deferLocations: bool ::
      && Filled(encoding, cursor, ProviderId(cursor, batch), mailboxes, limit, n)
      && CutDown(encoding, cursor, batch, mailboxes, n, k, deferLocations)
      && outcome == PageOf(cursor, batch, mailboxes, Halved(n, k), deferLocations) && !TooLarge(encoding, outcome)
  }

  lemma NotCutYet(encoding: Encoding, cursor: Cursor, batch: Batch, mailboxes: seq<string>, n: nat)
    requires Admissible(cursor, batch, mailboxes, n, false)
    ensures CutDown(encoding, cursor, batch, mailboxes, n, 0, false) && Halved(n, 0) == n
  {
  }

  lemma CutAgain(encoding: Encoding, cursor: Cursor, batch: Batch, mailboxes: seq<string>, n: nat, k: nat)
    requires Admissible(cursor, batch, mailboxes, n, false) && CutDown(encoding, cursor, batch, mailboxes, n, k, false)
    requires Halved(n, k) > 1 && TooLarge(encoding, PageOf(cursor, batch, mailboxes, Halved(n, k), false))
    ensures CutDown(encoding, cursor, batch, mailboxes, n, k + 1, false) && Halved(n, k + 1) == (Halved(n, k) + 1) / 2
  {
  }

  lemma PutOff(encoding: Encoding, cursor: Cursor, batch: Batch, mailboxes: seq<string>, n: nat, k: nat)
    requires Admissible(cursor, batch, mailboxes, n, false) && CutDown(encoding, cursor, batch, mailboxes, n, k, false)
    requires Halved(n, k) == 1 && TooLarge(encoding, PageOf(cursor, batch, mailboxes, 1, false))
    ensures CutDown(encoding, cursor, batch, mailboxes, n, k, true)
  {
  }

  lemma FewerAdmissible(cursor: Cursor, batch: Batch, mailboxes: seq<string>, n: nat, k: nat, deferLocations: bool)
    requires Admissible(cursor, batch, mailboxes, n, false) && (deferLocations ==> Halved(n, k) == 1)
    ensures Admissible(cursor, batch, mailboxes, Halved(n, k), deferLocations)
    ensures n > 1 ==> ProviderId(cursor, batch).Some?
  {
  }

  lemma PutOffPage(cursor: Cursor, batch: Batch, mailboxes: seq<string>)
    requires Admissible(cursor, batch, mailboxes, 1, true) && PageOf(cursor, batch, mailboxes, 1, true).Page?
    ensures PageOf(cursor, batch, mailboxes, 1, true).page.locationSet.None?
  {
  }

  /** When not even a page with the least possible content is small enough, the content is oversized. */
  lemma NothingFits(encoding: Encoding, cursor: Cursor, batch: Batch, mailboxes: seq<string>, n: nat, deferLocations: bool)
    requires Admissible(cursor, batch, mailboxes, n, deferLocations) && n <= 1
    requires TooLarge(encoding, PageOf(cursor, batch, mailboxes, n, deferLocations))
    requires n == 1 ==> PageOf(cursor, batch, mailboxes, n, deferLocations).page.locationSet.None?
    ensures !Fits(encoding, cursor, batch, mailboxes)
  {
    if n == 1 {
      assert PageOf(cursor, batch, mailboxes, 1, true) == PageOf(cursor, batch, mailboxes, 1, deferLocations);
    }
  }

  lemma FullPage(encoding: Encoding, cursor: Cursor, batch: Batch, mailboxes: seq<string>, n: nat)
    requires Admissible(cursor, batch, mailboxes, n, false) && Fits(encoding, cursor, batch, mailboxes)
    ensures forall k: nat, deferLocations: bool :: k <= n ==> PageOf(cursor, batch, mailboxes, k, deferLocations).Page?
  {
  }

  /** The loop that cuts a page down; it only fails on oversized content. */
  method CutPage(encoding: Encoding, cursor: Cursor, batch: Batch, mailboxes: seq<string>, filled: seq<Location>)
    returns (outcome: Outcome, ghost k: nat, ghost deferLocations: bool)
    requires Admissible(cursor, batch, mailboxes, |filled|, false)
    requires filled == Selected(cursor, ProviderId(cursor, batch), mailboxes, |filled|)
    ensures !TooLarge(encoding, outcome)
    ensures outcome.Page? ==> CutDown(encoding, cursor, batch, mailboxes, |filled|, k, deferLocations)
    ensures outcome.Page? ==> Admissible(cursor, batch, mailboxes, Halved(|filled|, k), deferLocations)
    ensures outcome.Page? ==> outcome == PageOf(cursor, batch, mailboxes, Halved(|filled|, k), deferLocations)
    ensures Fits(encoding, cursor, batch, mailboxes) ==> outcome.Page?
  {
    hide CutDown, Selected, Halved, BuildPage, Fits, ProviderId;
    var messages, deferred := filled, false;
    k, deferLocations := 0, false;
    NotCutYet(encoding, cursor, batch, mailboxes, |filled|);
    outcome := BuildPage(cursor, batch, mailboxes, messages, false);
    while outcome.Page? && encoding.pageBytes(outcome.page) > MAX_PAGE_BYTES
      invariant deferred == deferLocations && |messages| == Halved(|filled|, k)
      invariant messages == Selected(cursor, ProviderId(cursor, batch), mailboxes, |messages|)
      invariant Admissible(cursor, batch, mailboxes, |messages|, deferred)
      invariant outcome == PageOf(cursor, batch, mailboxes, |messages|, deferred)
      invariant deferred ==> |messages| == 1 && (outcome.Page? ==> outcome.page.locationSet.None?)
      invariant CutDown(encoding, cursor, batch, mailboxes, |filled|, k, deferred)
      decreases |messages|, !deferred
    {
      if |messages| > 1 {
        CutAgain(encoding, cursor, batch, mailboxes, |filled|, k);
        FewerAdmissible(cursor, batch, mailboxes, |filled|, k + 1, false);
        SelectedFront(cursor, ProviderId(cursor, batch), mailboxes, |messages|, (|messages| + 1) / 2);
        messages := messages[..(|messages| + 1) / 2];
        outcome := BuildPage(cursor, batch, mailboxes, messages, false);
        deferred := false;
        k, deferLocations := k + 1, false;
      } else if |messages| == 1 && outcome.page.locationSet.Some? {
        PutOff(encoding, cursor, batch, mailboxes, |filled|, k);
        deferred := true;
        deferLocations := true;
        outcome := BuildPage(cursor, batch, mailboxes, messages, true);
        if outcome.Page? { PutOffPage(cursor, batch, mailboxes); }
      } else {
        NothingFits(encoding, cursor, batch, mailboxes, |messages|, deferred);
        return Failed(InvalidData), k, deferLocations;
      }
    }
    if Fits(encoding, cursor, batch, mailboxes) { FullPage(encoding, cursor, batch, mailboxes, |filled|); }
  }

  /** `fetchPage` once the ids are known: observes the message, fills a page, and halves it until its encoding
      fits; the last resort is to put the location set off to a page of its own. */
  method FinishPage(encoding: Encoding, provider: Provider, cursor: Cursor, batch: Batch, limit: nat) returns (outcome: Outcome)
    requires limit >= 1
    ensures var observed := Observe(provider, ProviderId(cursor, batch));
      && (observed.HttpError? ==> outcome == Failed(Http(observed.status)))
      && (observed.Ok? ==> Answers(encoding, cursor, batch, observed.value, outcome))
      && (observed.Ok? && outcome.Page? ==> LargestFitting(encoding, cursor, batch, observed.value, limit, outcome))
      && (observed.Ok? && Fits(encoding, cursor, batch, observed.value) ==> outcome.Page?)
    ensures outcome.Page? ==> |outcome.page.messages| <= limit
  {
    hide CutDown, Selected, Halved, BuildPage, Fits, Filled, PageOf;
    var observed := Observe(provider, ProviderId(cursor, batch));
    if observed.HttpError? { return Failed(Http(observed.status)); }
    var mailboxes := observed.value;
    assert ProviderId(cursor, batch).None? ==> mailboxes == [];
    var filled := FillPage(encoding, cursor, batch, mailboxes, limit);
    if filled.None? { return Failed(InvalidData); }
    ghost var k, deferLocations;
    outcome, k, deferLocations := CutPage(encoding, cursor, batch, mailboxes, filled.value);
    if outcome.Page? {
      PageHolds(encoding, cursor, batch, mailboxes, limit, |filled.value|, k, deferLocations, outcome);
    }
  }

  /** What a page that was cut down means for the relation between steps and answers. */
  lemma PageHolds(encoding: Encoding, cursor: Cursor, batch: Batch, mailboxes: seq<string>, limit: nat, n: nat, k: nat, deferLocations: bool, outcome: Outcome)
    requires Filled(encoding, cursor, ProviderId(cursor, batch), mailboxes, limit, n)
    requires CutDown(encoding, cursor, batch, mailboxes, n, k, deferLocations)
    requires Admissible(cursor, batch, mailboxes, Halved(n, k), deferLocations)
    requires outcome.Page? && outcome == PageOf(cursor, batch, mailboxes, Halved(n, k), deferLocations) && !TooLarge(encoding, outcome)
    ensures Answers(encoding, cursor, batch, mailboxes, outcome) && LargestFitting(encoding, cursor, batch, mailboxes, limit, outcome)
    ensures |outcome.page.messages| <= limit
  {
    assert BuiltFrom(cursor, batch, mailboxes, Halved(n, k), deferLocations, outcome);
    assert |outcome.page.messages| <= Halved(n, k) <= n;
  }

  /** A message that is gone is in no mailbox. */
  function Observe(provider: Provider, id: Option<string>): Response<seq<string>> {
    match id
    case None => Ok([])
    case Some(id) =>
      match provider.observe(id)
      case Ok(mailboxes) => Ok(mailboxes)
      case HttpError(status) => if status == 404 then Ok([]) else HttpError(status)
  }

  predicate Usable(request: Request, cursor: Option<Cursor>) {
    cursor.Some? && cursor.value.accountId == request.accountId && cursor.value.tenantId == request.tenantId
  }

  /** A history too old to follow, or a stale page token, starts a repair over. */
  predicate MustRestart(cursor: Cursor, status: int) {
    status == 404 || (status == 400 && cursor.pageToken.Some? && cursor.pageToken.value != "")
  }

  function Restarted(provider: Provider, request: Request, cursor: Cursor): Outcome {
    Begin(provider, request, if cursor.generation.Some? then cursor.repairRestarts + 1 else 0)
  }

  /** What one call of `fetchPage` may answer. */
  ghost predicate Step(encoding: Encoding, provider: Provider, request: Request, cursor: Option<Cursor>, outcome: Outcome) {
    if request.limit < 1 then outcome == Failed(InvalidData)
    else if !Usable(request, cursor) then outcome == Begin(provider, request, 0)
    else
      match Fetch(provider, cursor.value)
      case HttpError(status) =>
        outcome == if MustRestart(cursor.value, status) then Restarted(provider, request, cursor.value) else Failed(Http(status))
      case Ok(batch) =>
        match Observe(provider, ProviderId(cursor.value, batch))
        case HttpError(status) => outcome == Failed(Http(status))
        case Ok(mailboxes) =>
          && Answers(encoding, cursor.value, batch, mailboxes, outcome)
          && (outcome.Page? ==> LargestFitting(encoding, cursor.value, batch, mailboxes, request.limit, outcome))
          && (outcome.Page? ==> |outcome.page.messages| <= request.limit)
          && (Fits(encoding, cursor.value, batch, mailboxes) ==> outcome.Page?)
  }

  method FetchPage(encoding: Encoding, provider: Provider, request: Request, cursor: Option<Cursor>) returns (outcome: Outcome)
    ensures Step(encoding, provider, request, cursor, outcome)
  {
    if request.limit < 1 { return Failed(InvalidData); }
    if !Usable(request, cursor) { return Begin(provider, request, 0); }
    var fetched := Fetch(provider, cursor.value);
    match fetched
    case HttpError(status) =>
      if MustRestart(cursor.value, status) { return Restarted(provider, request, cursor.value); }
      return Failed(Http(status));
    case Ok(batch) =>
      outcome := FinishPage(encoding, provider, cursor.value, batch, request.limit);
  }
}
