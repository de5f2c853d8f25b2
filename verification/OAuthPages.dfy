/** A consent page that is answered in time is found, however many requests come in between, as long as fewer than a hundred
    of them ask for a page of their own. */
module OAuthPages {
  import opened PriorityQueue
  import opened AgentAccess
  import opened OAuth
  import opened OAuthLaws

  /** The page waits, with at most `k` younger ones behind it. */
  ghost predicate Waits(pending: seq<(nat, Pending)>, id: nat, page: Pending, k: nat) {
    exists i: nat :: WaitsAt(pending, id, page, k, i)
  }

  ghost predicate WaitsAt(pending: seq<(nat, Pending)>, id: nat, page: Pending, k: nat, i: nat) {
    i < |pending| && pending[i] == (id, page) && |pending| - 1 - i <= k && forall j :: 0 <= j < i ==> pending[j].0 != id
  }

  lemma {:induction false} UnexpiredKeeps(pending: seq<(nat, Pending)>, now: int, id: nat, page: Pending, k: nat, i: nat) returns (l: nat)
    requires WaitsAt(pending, id, page, k, i) && now < page.expiresAt
    ensures WaitsAt(Unexpired(pending, now), id, page, k, l)
  {
    var n := |pending| - 1;
    var rest := Unexpired(pending[..n], now);
    if i == n {
      l := |rest|;
      forall j | 0 <= j < l
        ensures rest[j].0 != id
      {
        assert rest[j] in rest && rest[j] in pending[..n];
      }
    } else {
      l := UnexpiredKeeps(pending[..n], now, id, page, k - 1, i);
    }
  }

  lemma {:induction false} WithoutKeeps(pending: seq<(nat, Pending)>, request: nat, id: nat, page: Pending, k: nat, i: nat) returns (l: nat)
    requires WaitsAt(pending, id, page, k, i) && request != id
    ensures WaitsAt(WithoutPending(pending, request), id, page, k, l)
  {
    var n := |pending| - 1;
    var rest := WithoutPending(pending[..n], request);
    if i == n {
      l := |rest|;
      forall j | 0 <= j < l
        ensures rest[j].0 != id
      {
        assert rest[j] in rest && rest[j] in pending[..n];
      }
    } else {
      l := WithoutKeeps(pending[..n], request, id, page, k - 1, i);
    }
  }

  lemma {:induction false} WaitingIsFound(pending: seq<(nat, Pending)>, id: nat, page: Pending, k: nat, i: nat)
    requires WaitsAt(pending, id, page, k, i)
    ensures FindPending(pending, id) == Some(page)
  {
    if i > 0 {
      assert pending[0].0 != id;
      assert WaitsAt(pending[1..], id, page, k, i - 1);
      WaitingIsFound(pending[1..], id, page, k, i - 1);
    }
  }

  /** The request leaves the page alone: it is not an answer to it, and the page has not expired by then. */
  predicate Leaves(request: Request, id: nat, page: Pending) {
    match request
    case Authorize(now, _, _, _, _) => now < page.expiresAt
    case Consent(now, answered, _, _, _, _) => now < page.expiresAt && answered != id
    case _ => true
  }

  lemma StillWaits(system: System, request: Request, id: nat, page: Pending, k: nat)
    requires Waits(system.pending, id, page, k) && Leaves(request, id, page) && id < system.nextRequest
    requires request.Authorize? ==> k < MAX_PENDING - 1
    ensures Waits(Handled(system, request).0.pending, id, page, k + if request.Authorize? then 1 else 0)
  {
    hide Exchanged, Refreshed, AfterRevoke, GrantEnded, PersonalCreated, ConsentGiven, Unexpired, WithoutPending, FindPending, WaitsAt;
    var i: nat :| WaitsAt(system.pending, id, page, k, i);
    if request.Authorize? {
      var l := UnexpiredKeeps(system.pending, request.now, id, page, k, i);
      MakesRoom(Unexpired(system.pending, request.now), id, page, k, l, system.nextRequest,
                Pending(request.clientId, request.redirectUri, request.codeChallenge, request.server, request.now + PENDING_LIFETIME_MS));
    } else if request.Consent? {
      var l := UnexpiredKeeps(system.pending, request.now, id, page, k, i);
      var m := WithoutKeeps(Unexpired(system.pending, request.now), request.request, id, page, k, l);
      SomewhereWaits(WithoutPending(Unexpired(system.pending, request.now), request.request), id, page, k, m);
      assert Handled(system, request).0.pending == WithoutPending(Unexpired(system.pending, request.now), request.request);
    } else {
      assert Handled(system, request).0.pending == system.pending;
    }
  }

  lemma SomewhereWaits(pending: seq<(nat, Pending)>, id: nat, page: Pending, k: nat, i: nat)
    requires WaitsAt(pending, id, page, k, i)
    ensures Waits(pending, id, page, k)
  {
  }

  /** Making room drops the oldest page, which is not this one. */
  lemma MakesRoom(waiting: seq<(nat, Pending)>, id: nat, page: Pending, k: nat, i: nat, next: nat, asked: Pending)
    requires WaitsAt(waiting, id, page, k, i) && k < MAX_PENDING - 1 && id < next
    ensures Waits((if |waiting| >= MAX_PENDING then waiting[1..] else waiting) + [(next, asked)], id, page, k + 1)
  {
    var room := if |waiting| >= MAX_PENDING then waiting[1..] else waiting;
    assert WaitsAt(room + [(next, asked)], id, page, k + 1, if |waiting| >= MAX_PENDING then i - 1 else i);
  }

  function PagesAsked(requests: seq<Request>): nat {
    if requests == [] then 0 else PagesAsked(requests[..|requests| - 1]) + if requests[|requests| - 1].Authorize? then 1 else 0
  }

  lemma {:induction false} PageWaits(before: seq<Request>, ask: Request, between: seq<Request>)
    requires ask.Authorize? && PagesAsked(between) < MAX_PENDING
    requires forall r :: r in between ==> Leaves(r, After(before).nextRequest, PageOf(ask))
    ensures Waits(After(before + [ask] + between).pending, After(before).nextRequest, PageOf(ask), PagesAsked(between))
    ensures After(before).nextRequest < After(before + [ask] + between).nextRequest
  {
    hide Handled, Leaves, Waits;
    var id := After(before).nextRequest;
    if between == [] {
      assert before + [ask] + between == before + [ask];
      AppendStep(before, ask);
      RunPendingSound(before);
      NewestWaits(After(before), ask);
    } else {
      var front, last := between[..|between| - 1], between[|between| - 1];
      assert before + [ask] + between == before + [ask] + front + [last];
      assert forall r :: r in front ==> r in between;
      PageWaits(before, ask, front);
      AppendStep(before + [ask] + front, last);
      StillWaits(After(before + [ask] + front), last, id, PageOf(ask), PagesAsked(front));
      NextRequestGrows(After(before + [ask] + front), last);
    }
  }

  lemma NextRequestGrows(system: System, request: Request)
    ensures system.nextRequest <= Handled(system, request).0.nextRequest
  {
    hide Unexpired, FindPending, WithoutPending, Exchanged, Refreshed, AfterRevoke, GrantEnded, PersonalCreated, ConsentGiven;
  }

  /** What a request for authorization asks the owner. */
  function PageOf(ask: Request): Pending
    requires ask.Authorize?
  {
    Pending(ask.clientId, ask.redirectUri, ask.codeChallenge, ask.server, ask.now + 10 * 60 * 1000)
  }

  lemma NewestWaits(system: System, ask: Request)
    requires ask.Authorize? && PendingSound(system)
    ensures Waits(Handled(system, ask).0.pending, system.nextRequest, PageOf(ask), 0)
    ensures Handled(system, ask).0.nextRequest == system.nextRequest + 1
  {
    hide Unexpired;
    var waiting := Unexpired(system.pending, ask.now);
    var room := if |waiting| >= MAX_PENDING then waiting[1..] else waiting;
    forall j | 0 <= j < |room|
      ensures room[j].0 != system.nextRequest
    {
      assert room[j] in waiting && room[j] in system.pending;
    }
    assert WaitsAt(Handled(system, ask).0.pending, system.nextRequest, PageOf(ask), 0, |room|);
  }

  /** The owner's consent to a page is granted when it comes within ten minutes of the request for it and nobody has answered
      the page before, unless a hundred other pages were asked for in between. */
  lemma ConsentInTimeIsGranted(before: seq<Request>, ask: Request, between: seq<Request>, consent: Request)
    requires ask.Authorize? && ReplyTo(before, ask).Asked?
    requires forall r :: r in between ==>
      (r.Authorize? || r.Consent? ==> r.now < ask.now + 10 * 60 * 1000) && (r.Consent? ==> r.request != ReplyTo(before, ask).request)
    requires PagesAsked(between) < 100
    requires consent.Consent? && consent.request == ReplyTo(before, ask).request && consent.now < ask.now + 10 * 60 * 1000
    requires consent.allow && consent.tier.Some? && consent.clientKnown && consent.accountsChosen
    ensures ReplyTo(before + [ask] + between, consent).Granted?
    ensures FindPending(Unexpired(After(before + [ask] + between).pending, consent.now), consent.request) == Some(PageOf(ask))
  {
    hide After, Unexpired, FindPending, WithoutPending, ConsentGiven, WaitsAt;
    var id, system := After(before).nextRequest, After(before + [ask] + between);
    PageWaits(before, ask, between);
    var i: nat :| WaitsAt(system.pending, id, PageOf(ask), PagesAsked(between), i);
    var l := UnexpiredKeeps(system.pending, consent.now, id, PageOf(ask), PagesAsked(between), i);
    WaitingIsFound(Unexpired(system.pending, consent.now), id, PageOf(ask), PagesAsked(between), l);
  }

  /** From the request to the tokens: an authorization that the owner allows in time, and whose code the same client then
      presents in time with the matching verifier, succeeds with exactly the scopes of the chosen tier. */
  lemma AuthorizationSucceeds(before: seq<Request>, ask: Request, between: seq<Request>, consent: Request, later: seq<Request>, exchange: Request)
    requires ask.Authorize? && ReplyTo(before, ask).Asked?
    requires forall r :: r in between ==>
      (r.Authorize? || r.Consent? ==> r.now < ask.now + 10 * 60 * 1000) && (r.Consent? ==> r.request != ReplyTo(before, ask).request)
    requires PagesAsked(between) < 100
    requires consent.Consent? && consent.request == ReplyTo(before, ask).request && consent.now < ask.now + 10 * 60 * 1000
    requires consent.allow && consent.tier.Some? && consent.clientKnown && consent.accountsChosen
    requires var granted := ReplyTo(before + [ask] + between, consent);
      && granted.Granted? && (forall r :: r in later ==> !Presents(r, granted.code))
      && IsActive(After(before + [ask] + between + [consent] + later).db, granted.grant)
      && exchange.ExchangeCode? && exchange.code == granted.code
    requires exchange.client == Some(ask.clientId) && exchange.challenge == Some(ask.codeChallenge)
    requires exchange.returnsTo.None? || exchange.returnsTo == Some(ask.redirectUri)
    requires exchange.now < consent.now + 5 * 60 * 1000
    ensures var reply := ReplyTo(before + [ask] + between + [consent] + later, exchange);
      reply.Tokens? && reply.scopes == TierScopes(consent.tier.value)
  {
    hide After, Handled;
    ConsentInTimeIsGranted(before, ask, between, consent);
    FreshCodeWorks(before + [ask] + between, consent, later, exchange, PageOf(ask));
  }
}
