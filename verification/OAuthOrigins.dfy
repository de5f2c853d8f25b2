/** Where codes and tokens come from: whoever gets tokens, or authenticates with one, can be traced back through the
    run to the owner's consent. */
module OAuthOrigins {
  import opened PriorityQueue
  import opened AgentAccess
  import opened OAuth
  import opened OAuthLaws

  // Consent pages.

  /** Request `j` of the run asked for this consent page. */
  ghost predicate AskedBy(requests: seq<Request>, j: nat, id: nat, page: Pending) {
    && j < |requests| && requests[j].Authorize? && ReplyTo(requests[..j], requests[j]) == Asked(id)
    && page == Pending(requests[j].clientId, requests[j].redirectUri, requests[j].codeChallenge, requests[j].server, requests[j].now + PENDING_LIFETIME_MS)
  }

  lemma NewPage(system: System, request: Request, p: (nat, Pending))
    requires p in Handled(system, request).0.pending && p !in system.pending
    ensures request.Authorize? && Handled(system, request).1 == Asked(p.0)
    ensures p.1 == Pending(request.clientId, request.redirectUri, request.codeChallenge, request.server, request.now + PENDING_LIFETIME_MS)
  {
    hide Unexpired, FindPending, WithoutPending, Exchanged, Refreshed, AfterRevoke, GrantEnded, PersonalCreated, ConsentGiven;
  }

  lemma {:induction false} PageOrigin(requests: seq<Request>, p: (nat, Pending)) returns (j: nat)
    requires p in After(requests).pending
    ensures AskedBy(requests, j, p.0, p.1)
  {
    hide Handled;
    var n := |requests| - 1;
    if p in After(requests[..n]).pending {
      j := PageOrigin(requests[..n], p);
      assert requests[..n][..j] == requests[..j];
    } else {
      NewPage(After(requests[..n]), requests[n], p);
      j := n;
    }
  }

  // Codes.

  /** In request `i` of the run the owner allowed what `page` asks for, and got `code` for it. */
  ghost predicate AllowedBy(requests: seq<Request>, i: nat, page: Pending, code: nat, row: Code) {
    && i < |requests| && requests[i].Consent? && requests[i].allow && requests[i].tier.Some?
    && FindPending(Unexpired(After(requests[..i]).pending, requests[i].now), requests[i].request) == Some(page)
    && ReplyTo(requests[..i], requests[i]) == Granted(row.grantId, code)
    && row.clientId == page.clientId && row.redirectUri == page.redirectUri && row.codeChallenge == page.codeChallenge
    && row.resource == Some(page.resource) && row.expiresAt == requests[i].now + CODE_LIFETIME_MS
  }

  lemma NewCode(system: System, request: Request, code: nat)
    requires code in Handled(system, request).0.db.codes && code !in system.db.codes
    ensures request.Consent? && request.allow && request.tier.Some?
    ensures FindPending(Unexpired(system.pending, request.now), request.request).Some?
    ensures var page, row := FindPending(Unexpired(system.pending, request.now), request.request).value, Handled(system, request).0.db.codes[code];
      && Handled(system, request).1 == Granted(row.grantId, code)
      && row.clientId == page.clientId && row.redirectUri == page.redirectUri && row.codeChallenge == page.codeChallenge
      && row.resource == Some(page.resource) && row.expiresAt == request.now + CODE_LIFETIME_MS
      && Handled(system, request).0.db.grants[row.grantId].scopes == TierScopes(request.tier.value)
  {
    hide Unexpired, FindPending, WithoutPending, Within;
  }

  lemma {:induction false} CodeOrigin(requests: seq<Request>, code: nat) returns (i: nat, page: Pending)
    requires code in After(requests).db.codes
    ensures AllowedBy(requests, i, page, code, After(requests).db.codes[code])
    ensures var grant := After(requests).db.codes[code].grantId;
      grant in After(requests).db.grants && After(requests).db.grants[grant].scopes == TierScopes(requests[i].tier.value)
  {
    hide Handled, Unexpired, FindPending;
    var n := |requests| - 1;
    var front, last := requests[..n], requests[n];
    assert front + [last] == requests;
    RunSound(front);
    RunSound(requests);
    RunEvolves(front, [last]);
    if code in After(front).db.codes {
      i, page := CodeOrigin(front, code);
      assert front[..i] == requests[..i];
    } else {
      NewCode(After(front), last, code);
      i, page := n, FindPending(Unexpired(After(front).pending, last.now), last.request).value;
    }
  }

  lemma ExchangeChecks(db: Db, request: Request)
    requires request.ExchangeCode?
    requires Exchanged(db, request.now, request.client, request.code, request.challenge, request.returnsTo, request.server).1.Tokens?
    ensures request.code in db.codes
    ensures var row := db.codes[request.code];
      && request.now < row.expiresAt && request.client == Some(row.clientId) && request.challenge == Some(row.codeChallenge)
      && (request.returnsTo.Some? ==> request.returnsTo == Some(row.redirectUri)) && row.grantId in db.grants
      && Exchanged(db, request.now, request.client, request.code, request.challenge, request.returnsTo, request.server).1.scopes == db.grants[row.grantId].scopes
  {
  }

  /** Tokens for a code are only given to the client that asked, with the verifier and address it asked with, within
      five minutes of the owner's consent to a page that was shown at most ten minutes before; and the scopes are those
      of the tier the owner chose. */
  lemma TokensNeedConsent(requests: seq<Request>, exchange: Request) returns (j: nat, i: nat)
    requires exchange.ExchangeCode? && ReplyTo(requests, exchange).Tokens?
    ensures j < i < |requests| && requests[j].Authorize? && requests[i].Consent? && requests[i].allow && requests[i].tier.Some?
    ensures ReplyTo(requests[..j], requests[j]) == Asked(requests[i].request)
    ensures ReplyTo(requests[..i], requests[i]).Granted? && ReplyTo(requests[..i], requests[i]).code == exchange.code
    ensures exchange.client == Some(requests[j].clientId) && exchange.challenge == Some(requests[j].codeChallenge)
    ensures exchange.returnsTo.Some? ==> exchange.returnsTo == Some(requests[j].redirectUri)
    ensures exchange.now < requests[i].now + CODE_LIFETIME_MS && requests[i].now < requests[j].now + PENDING_LIFETIME_MS
    ensures ReplyTo(requests, exchange).scopes == TierScopes(requests[i].tier.value)
  {
    hide After, Handled, Exchanged, Unexpired, FindPending;
    HandlesExchange(After(requests), exchange);
    ExchangeChecks(After(requests).db, exchange);
    var page;
    i, page := CodeOrigin(requests, exchange.code);
    assert (requests[i].request, page) in Unexpired(After(requests[..i]).pending, requests[i].now);
    j := PageOrigin(requests[..i], (requests[i].request, page));
    assert requests[..i][..j] == requests[..j];
  }

  // Tokens.

  /** Request `i` of the run answered with this token. */
  ghost predicate IssuedBy(requests: seq<Request>, i: nat, token: nat, row: Token) {
    && i < |requests|
    && var reply := ReplyTo(requests[..i], requests[i]);
    match row.kind
    case Access => reply.Tokens? && reply.access == token && reply.scopes == row.scopes && row.expiresAt == Some(requests[i].now + ACCESS_TOKEN_LIFETIME_MS)
    case Refresh => reply.Tokens? && reply.refresh == token && reply.scopes == row.scopes && row.expiresAt == Some(requests[i].now + REFRESH_TOKEN_LIFETIME_MS)
    case Personal => requests[i].CreatePersonal? && reply == PersonalIssued(token) && row.scopes == TierScopes(requests[i].level) && row.expiresAt.None?
  }

  lemma NewToken(system: System, request: Request, token: nat)
    requires token in Handled(system, request).0.db.tokens && token !in system.db.tokens
    ensures var row, reply := Handled(system, request).0.db.tokens[token], Handled(system, request).1;
      match row.kind
      case Access => reply.Tokens? && reply.access == token && reply.scopes == row.scopes && row.expiresAt == Some(request.now + ACCESS_TOKEN_LIFETIME_MS)
      case Refresh => reply.Tokens? && reply.refresh == token && reply.scopes == row.scopes && row.expiresAt == Some(request.now + REFRESH_TOKEN_LIFETIME_MS)
      case Personal => request.CreatePersonal? && reply == PersonalIssued(token) && row.scopes == TierScopes(request.level) && row.expiresAt.None?
  {
    hide Unexpired, FindPending, WithoutPending, Within;
  }

  lemma {:induction false} TokenOrigin(requests: seq<Request>, token: nat) returns (i: nat)
    requires token in After(requests).db.tokens
    ensures IssuedBy(requests, i, token, After(requests).db.tokens[token])
  {
    hide Handled, TierScopes;
    var n := |requests| - 1;
    var front, last := requests[..n], requests[n];
    assert front + [last] == requests;
    RunEvolves(front, [last]);
    if token in After(front).db.tokens {
      i := TokenOrigin(front, token);
      assert front[..i] == requests[..i];
    } else {
      NewToken(After(front), last, token);
      i := n;
    }
  }

  /** A bearer token that authenticates was handed out in the run: either less than an hour ago by an exchange or a
      refresh, or by the owner as a personal token. */
  lemma BearerOrigin(requests: seq<Request>, token: nat, server: string, now: int) returns (i: nat)
    requires Authenticated(After(requests).db, token, server, now).Some?
    ensures i < |requests|
    ensures var reply := ReplyTo(requests[..i], requests[i]);
      || (reply.Tokens? && reply.access == token && now < requests[i].now + ACCESS_TOKEN_LIFETIME_MS)
      || (requests[i].CreatePersonal? && reply == PersonalIssued(token))
  {
    hide After, Handled;
    i := TokenOrigin(requests, token);
  }
}
