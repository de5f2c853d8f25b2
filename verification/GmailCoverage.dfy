/** Over a listing and a history that stay put, a synchronization emits exactly what is there: each location of
    each listed message in turn and then that message's location set, and only then moves its checkpoint. */
module GmailCoverage {
  import opened PriorityQueue
  import opened GmailSynchronization

  /** One page of a listing or of a history; the first one has no token. */
  datatype FeedPage = FeedPage(token: Option<string>, ids: seq<string>, historyId: string)

  /** `listing` is the account's message list, `changes` the history since `since`; a message that is not in
      `mailboxes` is gone. */
  datatype Feed = Feed(since: string, listing: seq<FeedPage>, changes: seq<FeedPage>, mailboxes: map<string, seq<string>>)

  datatype Event = Seen(location: Location) | Settled(locations: LocationSet)

  ghost predicate Chained(pages: seq<FeedPage>) {
    && pages != [] && pages[0].token == None
    && (forall k :: 0 < k < |pages| ==> pages[k].token.Some?)
    && (forall j, k :: 0 <= j < k < |pages| ==> pages[j].token != pages[k].token)
  }

  function NextToken(pages: seq<FeedPage>, k: nat): Option<string> {
    if k + 1 < |pages| then pages[k + 1].token else None
  }

  /** The provider answers from the feed, every time it is asked. */
  ghost predicate Serves(provider: Provider, feed: Feed) {
    && Chained(feed.listing) && Chained(feed.changes)
    && (forall k :: 0 <= k < |feed.listing| ==>
         provider.list(feed.listing[k].token) == Ok((feed.listing[k].ids, NextToken(feed.listing, k))))
    && (forall k :: 0 <= k < |feed.changes| ==>
         provider.history(feed.since, feed.changes[k].token)
           == Ok(Batch(feed.changes[k].ids, NextToken(feed.changes, k), feed.changes[k].historyId)))
    && (forall id :: provider.observe(id) == if id in feed.mailboxes then Ok(feed.mailboxes[id]) else HttpError(404))
  }

  // What is still to be emitted.

  function MailboxesOf(feed: Feed, id: string): seq<string> {
    if id in feed.mailboxes then feed.mailboxes[id] else []
  }

  function SeenEvents(locations: seq<Location>): (events: seq<Event>)
    ensures |events| == |locations|
    ensures forall i :: 0 <= i < |locations| ==> events[i] == Seen(locations[i])
  {
    seq(|locations|, i requires 0 <= i < |locations| => Seen(locations[i]))
  }

  /** Each location of a message, then its location set. */
  function EventsOf(feed: Feed, id: string): seq<Event> {
    SeenEvents(LocationsOf(id, MailboxesOf(feed, id))) + [Settled(LocationSet(id, MailboxesOf(feed, id)))]
  }

  function EventsOfIds(feed: Feed, ids: seq<string>): seq<Event> {
    if ids == [] then [] else EventsOf(feed, ids[0]) + EventsOfIds(feed, ids[1..])
  }

  function EventsOfPages(feed: Feed, pages: seq<FeedPage>): seq<Event> {
    if pages == [] then [] else EventsOfIds(feed, pages[0].ids) + EventsOfPages(feed, pages[1..])
  }

  function PagesOf(feed: Feed, stage: Stage): seq<FeedPage> {
    if stage == Full then feed.listing else feed.changes
  }

  /** What the current page still owes: the rest of the current message and the messages after it. */
  function Due(feed: Feed, ids: seq<string>, messageOffset: nat, labelOffset: nat): seq<Event> {
    if messageOffset >= |ids| || labelOffset > |EventsOf(feed, ids[messageOffset])| then []
    else EventsOf(feed, ids[messageOffset])[labelOffset..] + EventsOfIds(feed, ids[messageOffset + 1..])
  }

  /** What the cursor, standing on page `k` of its stage, still owes. */
  function Remaining(feed: Feed, cursor: Cursor, k: nat): seq<Event>
    requires k < |PagesOf(feed, cursor.stage)|
  {
    var pages := PagesOf(feed, cursor.stage);
    Due(feed, pages[k].ids, cursor.messageOffset, cursor.labelOffset) + EventsOfPages(feed, pages[k + 1..])
    + if cursor.stage == Full then EventsOfPages(feed, feed.changes) else []
  }

  /** The cursor stands on page `k` of its stage, and anything pending agrees with that page. */
  ghost predicate At(feed: Feed, cursor: Cursor, k: nat) {
    var pages := PagesOf(feed, cursor.stage);
    && k < |pages| && cursor.pageToken == pages[k].token && cursor.historyId == feed.since
    && (cursor.messageOffset < |pages[k].ids| || (cursor.messageOffset == 0 && pages[k].ids == []))
    && match cursor.pending
       case None => cursor.labelOffset == 0
       case Some(pending) =>
         && cursor.messageOffset < |pages[k].ids| && pending.id == pages[k].ids[cursor.messageOffset]
         && cursor.labelOffset <= |MailboxesOf(feed, pending.id)|
         && pending.nextToken == NextToken(pages, k)
         && pending.historyId == (if cursor.stage == Full then feed.since else pages[k].historyId)
         && pending.moreMessages == (cursor.messageOffset + 1 < |pages[k].ids|)
  }

  function Emitted(page: SyncPage): seq<Event> {
    SeenEvents(page.messages) + if page.locationSet.Some? then [Settled(page.locationSet.value)] else []
  }

  /** Pages still to be finished, counting the history when the listing is not done. */
  function PagesLeft(feed: Feed, cursor: Cursor, k: nat): int {
    |PagesOf(feed, cursor.stage)| - k + if cursor.stage == Full then |feed.changes| else 0
  }

  /** A bound on the steps left. */
  function Work(feed: Feed, cursor: Cursor, k: nat): int
    requires k < |PagesOf(feed, cursor.stage)|
  {
    |Remaining(feed, cursor, k)| + PagesLeft(feed, cursor, k)
  }

  /** The batch a step works on, wherever it comes from. */
  lemma BatchAt(provider: Provider, feed: Feed, cursor: Cursor, k: nat) returns (batch: Batch)
    requires Serves(provider, feed) && At(feed, cursor, k)
    ensures Fetch(provider, cursor) == Ok(batch)
    ensures var pages := PagesOf(feed, cursor.stage);
      && batch.nextToken == NextToken(pages, k)
      && batch.historyId == (if cursor.stage == Full then feed.since else pages[k].historyId)
      && MoreMessages(cursor, batch) == (cursor.messageOffset + 1 < |pages[k].ids|)
      && ProviderId(cursor, batch) == (if pages[k].ids == [] then None else Some(pages[k].ids[cursor.messageOffset]))
  {
    batch := Fetch(provider, cursor).value;
  }

  lemma Regroup<T>(a: seq<T>, b: seq<T>, c: seq<T>, d: seq<T>)
    ensures a + (b + c + d) == a + b + c + d
  {
  }

  lemma DueAfterTaking(feed: Feed, ids: seq<string>, messageOffset: nat, labelOffset: nat, n: nat)
    requires messageOffset < |ids| && labelOffset + n <= |MailboxesOf(feed, ids[messageOffset])|
    ensures SeenEvents(LocationsOf(ids[messageOffset], MailboxesOf(feed, ids[messageOffset])[labelOffset..labelOffset + n]))
      + Due(feed, ids, messageOffset, labelOffset + n) == Due(feed, ids, messageOffset, labelOffset)
  {
    hide EventsOfIds;
    var id := ids[messageOffset];
    var events := EventsOf(feed, id);
    var taken := SeenEvents(LocationsOf(id, MailboxesOf(feed, id)[labelOffset..labelOffset + n]));
    assert taken == events[labelOffset..labelOffset + n];
    assert events[labelOffset..] == taken + events[labelOffset + n..];
  }

  /** A page that takes `n` locations of the current message and leaves it unfinished. */
  lemma UnfinishedEmits(feed: Feed, cursor: Cursor, k: nat, batch: Batch, n: nat, next: Cursor)
    requires At(feed, cursor, k)
    requires var ids := PagesOf(feed, cursor.stage)[k].ids;
      && ids != [] && var id := ids[cursor.messageOffset];
      && 0 < n && cursor.labelOffset + n <= |MailboxesOf(feed, id)|
      && next == cursor.(labelOffset := cursor.labelOffset + n,
                         pending := Some(Pending(id, batch.nextToken, batch.historyId, cursor.messageOffset + 1 < |ids|)))
    requires batch.nextToken == NextToken(PagesOf(feed, cursor.stage), k)
    requires batch.historyId == (if cursor.stage == Full then feed.since else PagesOf(feed, cursor.stage)[k].historyId)
    ensures At(feed, next, k)
    ensures var id := PagesOf(feed, cursor.stage)[k].ids[cursor.messageOffset];
      SeenEvents(LocationsOf(id, MailboxesOf(feed, id)[cursor.labelOffset..cursor.labelOffset + n])) + Remaining(feed, next, k)
        == Remaining(feed, cursor, k)
  {
    hide EventsOf, EventsOfIds, EventsOfPages, Due;
    var pages := PagesOf(feed, cursor.stage);
    var id := pages[k].ids[cursor.messageOffset];
    DueAfterTaking(feed, pages[k].ids, cursor.messageOffset, cursor.labelOffset, n);
    Regroup(SeenEvents(LocationsOf(id, MailboxesOf(feed, id)[cursor.labelOffset..cursor.labelOffset + n])),
            Due(feed, pages[k].ids, next.messageOffset, next.labelOffset), EventsOfPages(feed, pages[k + 1..]),
            if cursor.stage == Full then EventsOfPages(feed, feed.changes) else []);
  }

  /** A finished message has emitted its remaining locations and its set. */
  lemma FinishedEmits(feed: Feed, ids: seq<string>, messageOffset: nat, labelOffset: nat)
    requires messageOffset < |ids| && labelOffset <= |MailboxesOf(feed, ids[messageOffset])|
    ensures var id := ids[messageOffset];
      Due(feed, ids, messageOffset, labelOffset)
        == SeenEvents(LocationsOf(id, MailboxesOf(feed, id)[labelOffset..])) + [Settled(LocationSet(id, MailboxesOf(feed, id)))]
          + EventsOfIds(feed, ids[messageOffset + 1..])
  {
    var id := ids[messageOffset];
    assert EventsOf(feed, id)[labelOffset..]
      == SeenEvents(LocationsOf(id, MailboxesOf(feed, id)[labelOffset..])) + [Settled(LocationSet(id, MailboxesOf(feed, id)))];
  }

  lemma EventsFromOffset(feed: Feed, ids: seq<string>, messageOffset: nat)
    requires messageOffset <= |ids|
    ensures Due(feed, ids, messageOffset, 0) == EventsOfIds(feed, ids[messageOffset..])
  {
    if messageOffset < |ids| {
      assert ids[messageOffset..][1..] == ids[messageOffset + 1..];
      assert EventsOf(feed, ids[messageOffset])[0..] == EventsOf(feed, ids[messageOffset]);
    }
  }

  /** What is owed after the current message. */
  function Rest(feed: Feed, cursor: Cursor, k: nat): seq<Event>
    requires k < |PagesOf(feed, cursor.stage)|
  {
    var pages := PagesOf(feed, cursor.stage);
    (if cursor.messageOffset < |pages[k].ids| then EventsOfIds(feed, pages[k].ids[cursor.messageOffset + 1..]) else [])
    + EventsOfPages(feed, pages[k + 1..])
    + if cursor.stage == Full then EventsOfPages(feed, feed.changes) else []
  }

  lemma EventsFromPage(feed: Feed, pages: seq<FeedPage>, k: nat)
    requires k < |pages|
    ensures EventsOfPages(feed, pages[k..]) == Due(feed, pages[k].ids, 0, 0) + EventsOfPages(feed, pages[k + 1..])
  {
    assert pages[k..][1..] == pages[k + 1..];
    EventsFromOffset(feed, pages[k].ids, 0);
    assert pages[k].ids[0..] == pages[k].ids;
  }

  lemma NextMessage(feed: Feed, cursor: Cursor, k: nat, next: Cursor)
    requires At(feed, cursor, k) && cursor.messageOffset + 1 < |PagesOf(feed, cursor.stage)[k].ids|
    requires next == cursor.(pending := None, messageOffset := cursor.messageOffset + 1, labelOffset := 0)
    ensures At(feed, next, k) && Remaining(feed, next, k) == Rest(feed, cursor, k)
  {
    EventsFromOffset(feed, PagesOf(feed, cursor.stage)[k].ids, cursor.messageOffset + 1);
  }

  lemma NextPage(feed: Feed, cursor: Cursor, k: nat, next: Cursor)
    requires At(feed, cursor, k) && cursor.messageOffset + 1 >= |PagesOf(feed, cursor.stage)[k].ids|
    requires k + 1 < |PagesOf(feed, cursor.stage)|
    requires next == cursor.(pending := None, pageToken := PagesOf(feed, cursor.stage)[k + 1].token, messageOffset := 0, labelOffset := 0)
    ensures At(feed, next, k + 1) && Remaining(feed, next, k + 1) == Rest(feed, cursor, k)
  {
    hide EventsOf, Due, EventsOfPages, MailboxesOf;
    var ids := PagesOf(feed, cursor.stage)[k].ids;
    EventsFromPage(feed, PagesOf(feed, cursor.stage), k + 1);
    if cursor.messageOffset < |ids| { assert ids[cursor.messageOffset + 1..] == []; }
  }

  lemma NextStage(feed: Feed, cursor: Cursor, k: nat, next: Cursor)
    requires At(feed, cursor, k) && cursor.messageOffset + 1 >= |PagesOf(feed, cursor.stage)[k].ids|
    requires k + 1 == |feed.listing| && cursor.stage == Full && Chained(feed.changes)
    requires next == cursor.(pending := None, stage := History, pageToken := None, messageOffset := 0, labelOffset := 0)
    ensures At(feed, next, 0) && Remaining(feed, next, 0) == Rest(feed, cursor, k)
  {
    var ids := feed.listing[k].ids;
    EventsFromPage(feed, feed.changes, 0);
    assert feed.changes[0..] == feed.changes && feed.listing[k + 1..] == [];
    if cursor.messageOffset < |ids| { assert ids[cursor.messageOffset + 1..] == []; }
  }

  lemma NothingRests(feed: Feed, cursor: Cursor, k: nat)
    requires At(feed, cursor, k) && cursor.messageOffset + 1 >= |PagesOf(feed, cursor.stage)[k].ids|
    requires k + 1 == |feed.changes| && cursor.stage == History
    ensures Rest(feed, cursor, k) == []
  {
    var ids := feed.changes[k].ids;
    assert feed.changes[k + 1..] == [];
    if cursor.messageOffset < |ids| { assert ids[cursor.messageOffset + 1..] == []; }
  }

  /** Where the next cursor stands when the current message is done. */
  function NextPosition(feed: Feed, cursor: Cursor, k: nat): nat
    requires k < |PagesOf(feed, cursor.stage)|
  {
    if cursor.messageOffset + 1 < |PagesOf(feed, cursor.stage)[k].ids| then k
    else if k + 1 < |PagesOf(feed, cursor.stage)| then k + 1 else 0
  }

  /** Once the current message is done the cursor moves on without skipping or repeating anything. */
  lemma NextKeepsRest(feed: Feed, cursor: Cursor, k: nat, batch: Batch)
    requires Chained(feed.listing) && Chained(feed.changes) && At(feed, cursor, k)
    requires batch.nextToken == NextToken(PagesOf(feed, cursor.stage), k)
    requires batch.historyId == (if cursor.stage == Full then feed.since else PagesOf(feed, cursor.stage)[k].historyId)
    requires MoreMessages(cursor, batch) == (cursor.messageOffset + 1 < |PagesOf(feed, cursor.stage)[k].ids|)
    ensures var (next, complete) := NextCursor(cursor, batch);
      && (complete ==> Rest(feed, cursor, k) == [] && next.historyId == feed.changes[|feed.changes| - 1].historyId)
      && (!complete ==> At(feed, next, NextPosition(feed, cursor, k)))
      && (!complete ==> Remaining(feed, next, NextPosition(feed, cursor, k)) == Rest(feed, cursor, k))
  {
    var (next, complete) := NextCursor(cursor, batch);
    if MoreMessages(cursor, batch) { NextMessage(feed, cursor, k, next); }
    else if batch.nextToken.Some? { NextPage(feed, cursor, k, next); }
    else if cursor.stage == Full { NextStage(feed, cursor, k, next); }
    else { NothingRests(feed, cursor, k); }
  }

  /** What the step must establish about its page: nothing lost, nothing repeated, and progress. */
  ghost predicate Advances(feed: Feed, cursor: Cursor, k: nat, page: SyncPage, k': nat) {
    && k < |PagesOf(feed, cursor.stage)|
    && (page.hasMore ==>
         && At(feed, page.cursor, k')
         && Emitted(page) + Remaining(feed, page.cursor, k') == Remaining(feed, cursor, k)
         && Work(feed, page.cursor, k') < Work(feed, cursor, k))
    && (!page.hasMore ==>
         && Emitted(page) == Remaining(feed, cursor, k)
         && cursor.stage == History && page.cursor.historyId == feed.changes[|feed.changes| - 1].historyId)
  }

  ghost predicate FromPage(feed: Feed, cursor: Cursor, k: nat, batch: Batch)
    requires k < |PagesOf(feed, cursor.stage)|
  {
    var pages := PagesOf(feed, cursor.stage);
    && batch.nextToken == NextToken(pages, k)
    && batch.historyId == (if cursor.stage == Full then feed.since else pages[k].historyId)
    && MoreMessages(cursor, batch) == (cursor.messageOffset + 1 < |pages[k].ids|)
    && ProviderId(cursor, batch) == (if cursor.messageOffset < |pages[k].ids| then Some(pages[k].ids[cursor.messageOffset]) else None)
  }

  /** A step whose page has no message left to look at only moves on. */
  lemma StepOnEmptyPage(feed: Feed, cursor: Cursor, k: nat, batch: Batch, page: SyncPage)
    requires Chained(feed.listing) && Chained(feed.changes) && At(feed, cursor, k) && FromPage(feed, cursor, k, batch)
    requires ProviderId(cursor, batch).None? && Page(page) == BuildPage(cursor, batch, [], [], false)
    ensures Advances(feed, cursor, k, page, NextPosition(feed, cursor, k))
  {
    hide EventsOf, EventsOfIds, EventsOfPages, Chained;
    NextKeepsRest(feed, cursor, k, batch);
    assert Emitted(page) == [];
    assert Remaining(feed, cursor, k) == Rest(feed, cursor, k);
  }

  lemma StepUnfinished(feed: Feed, cursor: Cursor, k: nat, batch: Batch, n: nat, page: SyncPage, deferLocations: bool)
    requires Chained(feed.listing) && Chained(feed.changes) && At(feed, cursor, k) && FromPage(feed, cursor, k, batch)
    requires ProviderId(cursor, batch).Some?
    requires BuiltFrom(cursor, batch, MailboxesOf(feed, ProviderId(cursor, batch).value), n, deferLocations, Page(page))
    requires page.locationSet.None?
    ensures Advances(feed, cursor, k, page, k)
  {
    UnfinishedEmits(feed, cursor, k, batch, n, page.cursor);
    assert Emitted(page) == SeenEvents(page.messages);
  }

  lemma FinishedPage(cursor: Cursor, batch: Batch, mailboxes: seq<string>, n: nat, deferLocations: bool, page: SyncPage, id: string)
    requires BuiltFrom(cursor, batch, mailboxes, n, deferLocations, Page(page)) && page.locationSet.Some?
    requires ProviderId(cursor, batch) == Some(id) && cursor.labelOffset <= |mailboxes|
    ensures page.locationSet == Some(LocationSet(id, mailboxes))
    ensures page.messages == LocationsOf(id, mailboxes[cursor.labelOffset..])
    ensures NextCursor(cursor, batch) == (page.cursor, !page.hasMore)
  {
    if n == 0 { assert mailboxes[cursor.labelOffset..] == []; }
    else { assert mailboxes[cursor.labelOffset..cursor.labelOffset + n] == mailboxes[cursor.labelOffset..]; }
  }

  lemma FinishedThenRest(feed: Feed, cursor: Cursor, k: nat, page: SyncPage, id: string)
    requires At(feed, cursor, k) && cursor.messageOffset < |PagesOf(feed, cursor.stage)[k].ids|
    requires id == PagesOf(feed, cursor.stage)[k].ids[cursor.messageOffset]
    requires page.locationSet == Some(LocationSet(id, MailboxesOf(feed, id))) && cursor.labelOffset <= |MailboxesOf(feed, id)|
    requires page.messages == LocationsOf(id, MailboxesOf(feed, id)[cursor.labelOffset..])
    ensures Emitted(page) + Rest(feed, cursor, k) == Remaining(feed, cursor, k) && Emitted(page) != []
  {
    hide EventsOf, EventsOfIds, EventsOfPages, Due;
    var pages := PagesOf(feed, cursor.stage);
    FinishedEmits(feed, pages[k].ids, cursor.messageOffset, cursor.labelOffset);
    assert Emitted(page) == SeenEvents(page.messages) + [Settled(page.locationSet.value)];
    Regroup(Emitted(page), EventsOfIds(feed, pages[k].ids[cursor.messageOffset + 1..]), EventsOfPages(feed, pages[k + 1..]),
            if cursor.stage == Full then EventsOfPages(feed, feed.changes) else []);
  }

  /** A step that emits something, owes the rest afterwards and follows `NextCursor` advances. */
  lemma MovesOn(feed: Feed, cursor: Cursor, k: nat, batch: Batch, page: SyncPage)
    requires Chained(feed.listing) && Chained(feed.changes) && At(feed, cursor, k) && FromPage(feed, cursor, k, batch)
    requires NextCursor(cursor, batch) == (page.cursor, !page.hasMore)
    requires Emitted(page) + Rest(feed, cursor, k) == Remaining(feed, cursor, k) && Emitted(page) != []
    ensures Advances(feed, cursor, k, page, NextPosition(feed, cursor, k))
  {
    hide Emitted, Rest, Remaining, Chained;
    NextKeepsRest(feed, cursor, k, batch);
    assert PagesLeft(feed, page.cursor, NextPosition(feed, cursor, k)) <= PagesLeft(feed, cursor, k) || !page.hasMore;
  }

  lemma StepFinished(feed: Feed, cursor: Cursor, k: nat, batch: Batch, n: nat, page: SyncPage, deferLocations: bool)
    requires Chained(feed.listing) && Chained(feed.changes) && At(feed, cursor, k) && FromPage(feed, cursor, k, batch)
    requires ProviderId(cursor, batch).Some?
    requires BuiltFrom(cursor, batch, MailboxesOf(feed, ProviderId(cursor, batch).value), n, deferLocations, Page(page))
    requires page.locationSet.Some?
    ensures Advances(feed, cursor, k, page, NextPosition(feed, cursor, k))
  {
    hide BuiltFrom, Chained, Advances, NextCursor, Rest, Remaining;
    var id := ProviderId(cursor, batch).value;
    FinishedPage(cursor, batch, MailboxesOf(feed, id), n, deferLocations, page, id);
    FinishedThenRest(feed, cursor, k, page, id);
    MovesOn(feed, cursor, k, batch, page);
  }

  /** Every successful step on a page of the feed emits the next part of what is owed, leaves the cursor owing
      exactly the rest, and comes closer to the end. */
  lemma StepAdvances(encoding: Encoding, provider: Provider, request: Request, feed: Feed, cursor: Cursor, k: nat, page: SyncPage) returns (k': nat)
    requires Serves(provider, feed) && At(feed, cursor, k) && Usable(request, Some(cursor))
    requires Step(encoding, provider, request, Some(cursor), Page(page))
    ensures Advances(feed, cursor, k, page, k')
  {
    hide Advances, Serves, Built, BuiltFrom;
    var batch, n, deferLocations := StepShape(encoding, provider, request, feed, cursor, k, page);
    if ProviderId(cursor, batch).None? {
      k' := NextPosition(feed, cursor, k);
      StepOnEmptyPage(feed, cursor, k, batch, page);
    } else if page.locationSet.None? {
      k' := k;
      StepUnfinished(feed, cursor, k, batch, n, page, deferLocations);
    } else {
      k' := NextPosition(feed, cursor, k);
      StepFinished(feed, cursor, k, batch, n, page, deferLocations);
    }
  }

  lemma StepShape(encoding: Encoding, provider: Provider, request: Request, feed: Feed, cursor: Cursor, k: nat, page: SyncPage)
    returns (batch: Batch, n: nat, deferLocations: bool)
    requires Serves(provider, feed) && At(feed, cursor, k) && Usable(request, Some(cursor))
    requires Step(encoding, provider, request, Some(cursor), Page(page))
    ensures Chained(feed.listing) && Chained(feed.changes) && FromPage(feed, cursor, k, batch)
    ensures ProviderId(cursor, batch).None? ==> Page(page) == BuildPage(cursor, batch, [], [], false)
    ensures ProviderId(cursor, batch).Some? ==>
      BuiltFrom(cursor, batch, MailboxesOf(feed, ProviderId(cursor, batch).value), n, deferLocations, Page(page))
  {
    batch := BatchAt(provider, feed, cursor, k);
    var mailboxes := Observe(provider, ProviderId(cursor, batch)).value;
    assert Built(cursor, batch, mailboxes, Page(page));
    n, deferLocations :| BuiltFrom(cursor, batch, mailboxes, n, deferLocations, Page(page));
  }

  // Whole runs.

  /** `pages` are the answers to consecutive steps from `cursor`, each but the last saying that more is to come. */
  ghost predicate Run(encoding: Encoding, provider: Provider, requests: seq<Request>, cursor: Cursor, pages: seq<SyncPage>) {
    |requests| == |pages| &&
    (pages != [] ==>
      && Usable(requests[0], Some(cursor)) && Step(encoding, provider, requests[0], Some(cursor), Page(pages[0]))
      && (|pages| > 1 ==> pages[0].hasMore)
      && Run(encoding, provider, requests[1..], pages[0].cursor, pages[1..]))
  }

  function EmittedBy(pages: seq<SyncPage>): seq<Event> {
    if pages == [] then [] else Emitted(pages[0]) + EmittedBy(pages[1..])
  }

  ghost predicate Completed(pages: seq<SyncPage>) {
    pages != [] && !pages[|pages| - 1].hasMore
  }

  /** A run emits what the cursor owed, in order and without repetition: all of it if the run is complete, and
      otherwise everything up to what its last cursor still owes. It is no longer than the work there was. */
  lemma {:induction false} RunEmits(encoding: Encoding, provider: Provider, requests: seq<Request>, feed: Feed, cursor: Cursor, k: nat,
                                    pages: seq<SyncPage>) returns (k': nat)
    requires Serves(provider, feed) && At(feed, cursor, k) && Run(encoding, provider, requests, cursor, pages)
    ensures Completed(pages) ==> EmittedBy(pages) == Remaining(feed, cursor, k)
    ensures Completed(pages) ==> pages[|pages| - 1].cursor.historyId == feed.changes[|feed.changes| - 1].historyId
    ensures pages != [] && !Completed(pages) ==>
      At(feed, pages[|pages| - 1].cursor, k')
      && EmittedBy(pages) + Remaining(feed, pages[|pages| - 1].cursor, k') == Remaining(feed, cursor, k)
    ensures |pages| <= Work(feed, cursor, k)
    decreases |pages|
  {
    hide Serves, At, Step, Remaining, PagesLeft;
    k' := k;
    WorkPositive(feed, cursor, k);
    if pages != [] {
      k' := StepAdvances(encoding, provider, requests[0], feed, cursor, k, pages[0]);
      if |pages| == 1 {
        assert EmittedBy(pages) == Emitted(pages[0]) + [];
      } else {
        var rest := k';
        k' := RunEmits(encoding, provider, requests[1..], feed, pages[0].cursor, rest, pages[1..]);
      }
    }
  }

  lemma WorkPositive(feed: Feed, cursor: Cursor, k: nat)
    requires At(feed, cursor, k)
    ensures k < |PagesOf(feed, cursor.stage)| && Work(feed, cursor, k) > 0
  {
  }

  /** A synchronization that starts from scratch and completes has emitted the whole listing followed by the
      history since the checkpoint read before it: nothing is skipped and nothing comes twice. */
  lemma FullSynchronizationCovers(encoding: Encoding, provider: Provider, request: Request, requests: seq<Request>, feed: Feed,
                                  start: SyncPage, pages: seq<SyncPage>)
    requires Serves(provider, feed) && provider.profile == Ok(feed.since) && Begin(provider, request, 0) == Page(start)
    requires Run(encoding, provider, requests, start.cursor, pages) && Completed(pages)
    ensures EmittedBy(pages) == EventsOfPages(feed, feed.listing) + EventsOfPages(feed, feed.changes)
    ensures pages[|pages| - 1].cursor.historyId == feed.changes[|feed.changes| - 1].historyId
    ensures |pages| <= |EmittedBy(pages)| + |feed.listing| + |feed.changes|
  {
    assert At(feed, start.cursor, 0);
    EventsFromPage(feed, feed.listing, 0);
    assert feed.listing[0..] == feed.listing;
    var _ := RunEmits(encoding, provider, requests, feed, start.cursor, 0, pages);
  }

  /** Whenever a run from a checkpoint, finished or not, has a history id other than that checkpoint, it has emitted
      exactly the history since then: every message of every history page, each with its location set. */
  lemma CheckpointNeverPassesWork(encoding: Encoding, provider: Provider, requests: seq<Request>, feed: Feed, cursor: Cursor, pages: seq<SyncPage>)
    requires Serves(provider, feed) && cursor.stage == History && cursor.historyId == feed.since
    requires cursor.pageToken.None? && cursor.messageOffset == cursor.labelOffset == 0 && cursor.pending.None?
    requires Run(encoding, provider, requests, cursor, pages) && pages != []
    requires pages[|pages| - 1].cursor.historyId != cursor.historyId || Completed(pages)
    ensures Completed(pages) && EmittedBy(pages) == EventsOfPages(feed, feed.changes)
    ensures pages[|pages| - 1].cursor.historyId == feed.changes[|feed.changes| - 1].historyId
  {
    HistoryAhead(provider, feed, cursor);
    hide Serves, Run, Remaining, EventsOfPages, Work, EmittedBy;
    var k' := RunEmits(encoding, provider, requests, feed, cursor, 0, pages);
  }

  lemma HistoryAhead(provider: Provider, feed: Feed, cursor: Cursor)
    requires Serves(provider, feed) && cursor.stage == History && cursor.historyId == feed.since
    requires cursor.pageToken.None? && cursor.messageOffset == cursor.labelOffset == 0 && cursor.pending.None?
    ensures At(feed, cursor, 0) && Remaining(feed, cursor, 0) == EventsOfPages(feed, feed.changes)
  {
    EventsFromPage(feed, feed.changes, 0);
    assert feed.changes[0..] == feed.changes;
  }

  /** In the middle of a run nothing but oversized content can stop a step. */
  lemma StepSucceeds(encoding: Encoding, provider: Provider, request: Request, feed: Feed, cursor: Cursor, k: nat, outcome: Outcome)
    requires Serves(provider, feed) && At(feed, cursor, k) && Usable(request, Some(cursor)) && request.limit >= 1
    requires Step(encoding, provider, request, Some(cursor), outcome)
    requires var batch := Fetch(provider, cursor).value;
      Fits(encoding, cursor, batch, match ProviderId(cursor, batch) case None => [] case Some(id) => MailboxesOf(feed, id))
    ensures outcome.Page?
  {
    var _ := BatchAt(provider, feed, cursor, k);
  }

  // Snapshots: what a repair has seen.

  function SeenIn(pages: seq<SyncPage>): seq<Location> {
    if pages == [] then []
    else (if pages[0].snapshot.Some? then pages[0].snapshot.value.seen else []) + SeenIn(pages[1..])
  }

  function LocationOf(event: Event): seq<Location> {
    match event case Seen(location) => [location] case Settled(_) => []
  }

  function LocationsIn(events: seq<Event>): seq<Location> {
    if events == [] then [] else LocationOf(events[0]) + LocationsIn(events[1..])
  }

  lemma {:induction false} LocationsInSum(left: seq<Event>, right: seq<Event>)
    ensures LocationsIn(left + right) == LocationsIn(left) + LocationsIn(right)
  {
    if left == [] {
      assert left + right == right;
    } else {
      hide LocationOf;
      assert (left + right)[1..] == left[1..] + right;
      LocationsInSum(left[1..], right);
      assert LocationOf(left[0]) + (LocationsIn(left[1..]) + LocationsIn(right)) == LocationOf(left[0]) + LocationsIn(left[1..]) + LocationsIn(right);
    }
  }

  lemma {:induction false} LocationsInSeen(locations: seq<Location>)
    ensures LocationsIn(SeenEvents(locations)) == locations
  {
    if locations != [] {
      assert SeenEvents(locations)[1..] == SeenEvents(locations[1..]);
      LocationsInSeen(locations[1..]);
    }
  }

  /** One step of a repair reports to its generation exactly the locations it emits, and says so when it is the last. */
  lemma StepSnapshot(encoding: Encoding, provider: Provider, request: Request, feed: Feed, cursor: Cursor, k: nat, page: SyncPage, generation: string)
    requires Serves(provider, feed) && At(feed, cursor, k) && Usable(request, Some(cursor)) && cursor.generation == Some(generation)
    requires Step(encoding, provider, request, Some(cursor), Page(page))
    ensures page.snapshot == Some(Snapshot(generation, if page.hasMore then Continue else Complete, page.messages))
    ensures page.hasMore ==> page.cursor.generation == Some(generation)
    ensures LocationsIn(Emitted(page)) == page.messages
  {
    var batch, n, deferLocations := StepShape(encoding, provider, request, feed, cursor, k, page);
    hide Serves, At, Step, BuiltFrom, BuildPage, FromPage, Chained, ProviderId;
    if ProviderId(cursor, batch).Some? {
      BuiltSnapshot(cursor, batch, MailboxesOf(feed, ProviderId(cursor, batch).value), n, deferLocations, page, generation);
    } else {
      EmptySnapshot(cursor, batch, page, generation);
    }
    LocationsInSeen(page.messages);
    LocationsInSum(SeenEvents(page.messages), if page.locationSet.Some? then [Settled(page.locationSet.value)] else []);
  }

  lemma BuiltSnapshot(cursor: Cursor, batch: Batch, mailboxes: seq<string>, n: nat, deferLocations: bool, page: SyncPage, generation: string)
    requires BuiltFrom(cursor, batch, mailboxes, n, deferLocations, Page(page)) && cursor.generation == Some(generation)
    ensures page.snapshot == Some(Snapshot(generation, if page.hasMore then Continue else Complete, page.messages))
    ensures page.hasMore ==> page.cursor.generation == Some(generation)
  {
    hide Selected;
  }

  lemma EmptySnapshot(cursor: Cursor, batch: Batch, page: SyncPage, generation: string)
    requires Page(page) == BuildPage(cursor, batch, [], [], false) && cursor.generation == Some(generation)
    ensures page.snapshot == Some(Snapshot(generation, if page.hasMore then Continue else Complete, page.messages))
    ensures page.hasMore ==> page.cursor.generation == Some(generation)
  {
  }

  /** By the time a repair's generation is complete it has seen every location the repair emitted. */
  lemma {:induction false} GenerationSeesAll(encoding: Encoding, provider: Provider, requests: seq<Request>, feed: Feed, cursor: Cursor, k: nat,
                                             pages: seq<SyncPage>, generation: string)
    requires Serves(provider, feed) && At(feed, cursor, k) && Run(encoding, provider, requests, cursor, pages)
    requires cursor.generation == Some(generation)
    ensures SeenIn(pages) == LocationsIn(EmittedBy(pages))
    ensures forall i :: 0 <= i < |pages| ==> pages[i].snapshot.Some? && pages[i].snapshot.value.generation == generation
    ensures forall i :: 0 <= i < |pages| ==> (pages[i].snapshot.value.phase == Complete <==> !pages[i].hasMore)
    decreases |pages|
  {
    hide Serves, At, Step, Remaining, Emitted;
    if pages != [] {
      StepSnapshot(encoding, provider, requests[0], feed, cursor, k, pages[0], generation);
      LocationsInSum(Emitted(pages[0]), EmittedBy(pages[1..]));
      if |pages| > 1 {
        var k' := StepAdvances(encoding, provider, requests[0], feed, cursor, k, pages[0]);
        GenerationSeesAll(encoding, provider, requests[1..], feed, pages[0].cursor, k', pages[1..], generation);
        assert forall i :: 0 < i < |pages| ==> pages[i] == pages[1..][i - 1];
      }
    }
  }
}
