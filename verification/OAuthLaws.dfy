/** What holds in every run of the OAuth endpoints, and what one request means for every later one. */
module OAuthLaws {
  import opened PriorityQueue
  import opened AgentAccess
  import opened OAuth

  // Runs.

  function Empty(): System {
    System(Db(map[], map[], map[], 0), [], 0)
  }

  function After(requests: seq<Request>): System {
    if requests == [] then Empty() else Handled(After(requests[..|requests| - 1]), requests[|requests| - 1]).0
  }

  /** The answer to `request` when it follows `requests`. */
  function ReplyTo(requests: seq<Request>, request: Request): Reply {
    Handled(After(requests), request).1
  }

  // The invariant.

  /** An unused code or an unrevoked refresh token: something that can still be turned into new tokens. */
  predicate Unspent(db: Db, secret: nat, grant: nat) {
    || (secret in db.codes && db.codes[secret].grantId == grant && db.codes[secret].usedAt.None?)
    || (secret in db.tokens && db.tokens[secret].grantId == grant && db.tokens[secret].kind == Refresh && db.tokens[secret].revokedAt.None?)
  }

  ghost predicate NothingUnspent(db: Db, grant: nat) {
    forall secret {:trigger Unspent(db, secret, grant)} :: !Unspent(db, secret, grant)
  }

  ghost predicate Numbered(db: Db) {
    && (forall g :: g in db.grants ==> g < db.next)
    && (forall c :: c in db.codes ==> c < db.next && db.codes[c].grantId in db.grants)
    && (forall t :: t in db.tokens ==> t < db.next && db.tokens[t].grantId in db.grants && t !in db.codes)
  }

  ghost predicate ScopesWithinGrants(db: Db) {
    forall t :: t in db.tokens ==> db.tokens[t].grantId in db.grants && Within(db.tokens[t].scopes, db.grants[db.tokens[t].grantId].scopes)
  }

  /** Codes and unrevoked tokens belong to grants that are not revoked. */
  ghost predicate Closed(db: Db) {
    && (forall c :: c in db.codes ==> IsActive(db, db.codes[c].grantId))
    && (forall t :: t in db.tokens && db.tokens[t].revokedAt.None? ==> IsActive(db, db.tokens[t].grantId))
  }

  ghost predicate SingleCredential(db: Db) {
    forall x, y, grant {:trigger Unspent(db, x, grant), Unspent(db, y, grant)} :: Unspent(db, x, grant) && Unspent(db, y, grant) ==> x == y
  }

  ghost predicate Sound(db: Db) {
    Numbered(db) && ScopesWithinGrants(db) && Closed(db) && SingleCredential(db)
  }

  lemma GrantCreatedSound(db: Db, grant: Grant)
    requires Sound(db) && grant.revokedAt.None?
    ensures Sound(GrantCreated(db, grant)) && NothingUnspent(GrantCreated(db, grant), db.next)
  {
    var after := GrantCreated(db, grant);
    assert forall x, g {:trigger Unspent(after, x, g)} :: Unspent(after, x, g) ==> Unspent(db, x, g) && g != db.next;
  }

  lemma CodeIssuedSound(db: Db, code: Code)
    requires Sound(db) && IsActive(db, code.grantId) && NothingUnspent(db, code.grantId)
    ensures Sound(CodeIssued(db, code))
  {
    var after := CodeIssued(db, code);
    assert forall x, g {:trigger Unspent(after, x, g)} :: Unspent(after, x, g) ==> Unspent(db, x, g) || (x == db.next && g == code.grantId);
  }

  lemma TokenIssuedSound(db: Db, token: Token)
    requires Sound(db) && IsActive(db, token.grantId) && Within(token.scopes, db.grants[token.grantId].scopes)
    requires token.kind == Refresh ==> NothingUnspent(db, token.grantId)
    ensures Sound(TokenIssued(db, token))
    ensures token.kind != Refresh && NothingUnspent(db, token.grantId) ==> NothingUnspent(TokenIssued(db, token), token.grantId)
  {
    var after := TokenIssued(db, token);
    assert forall x, g {:trigger Unspent(after, x, g)} :: Unspent(after, x, g) ==>
      Unspent(db, x, g) || (x == db.next && g == token.grantId && token.kind == Refresh);
  }

  lemma CodeConsumedSound(db: Db, code: nat, now: int)
    requires Sound(db)
    ensures Sound(CodeConsumed(db, code, now))
    ensures code in db.codes && db.codes[code].usedAt.None? ==> NothingUnspent(CodeConsumed(db, code, now), db.codes[code].grantId)
  {
    var after := CodeConsumed(db, code, now);
    assert forall x, g {:trigger Unspent(after, x, g)} :: Unspent(after, x, g) ==> Unspent(db, x, g) && (x != code || x in db.tokens);
    if code in db.codes && db.codes[code].usedAt.None? {
      assert Unspent(db, code, db.codes[code].grantId);
    }
  }

  lemma TokenRevokedSound(db: Db, token: nat, now: int)
    requires Sound(db)
    ensures Sound(TokenRevoked(db, token, now))
    ensures token in db.tokens && db.tokens[token].kind == Refresh && db.tokens[token].revokedAt.None? ==>
      NothingUnspent(TokenRevoked(db, token, now), db.tokens[token].grantId)
  {
    var after := TokenRevoked(db, token, now);
    assert forall x, g {:trigger Unspent(after, x, g)} :: Unspent(after, x, g) ==> Unspent(db, x, g) && (x != token || x in db.codes);
    if token in db.tokens && db.tokens[token].kind == Refresh && db.tokens[token].revokedAt.None? {
      assert Unspent(db, token, db.tokens[token].grantId);
    }
  }

  lemma GrantRevokedSound(db: Db, grant: nat, now: int)
    requires Sound(db)
    ensures Sound(GrantRevoked(db, grant, now))
  {
    var after := GrantRevoked(db, grant, now);
    assert forall x, g {:trigger Unspent(after, x, g)} :: Unspent(after, x, g) ==> Unspent(db, x, g);
  }

  lemma PairIssuedSound(db: Db, grant: nat, scopes: seq<Scope>, resource: string, now: int)
    requires Sound(db) && IsActive(db, grant) && NothingUnspent(db, grant) && Within(scopes, db.grants[grant].scopes)
    ensures Sound(PairIssued(db, grant, scopes, resource, now).0)
  {
    hide Sound, Within;
    var access := Token(grant, Access, Some(resource), scopes, Some(now + ACCESS_TOKEN_LIFETIME_MS), None);
    TokenIssuedSound(db, access);
    TokenIssuedSound(TokenIssued(db, access), Token(grant, Refresh, Some(resource), scopes, Some(now + REFRESH_TOKEN_LIFETIME_MS), None));
  }

  lemma TokenIsScoped(db: Db, token: nat)
    requires Sound(db) && token in db.tokens
    ensures db.tokens[token].grantId in db.grants && Within(db.tokens[token].scopes, db.grants[db.tokens[token].grantId].scopes)
  {
  }

  lemma ExchangedSound(db: Db, now: int, client: Option<string>, code: nat, challenge: Option<string>, redirectUri: Option<string>, server: string)
    requires Sound(db)
    ensures Sound(Exchanged(db, now, client, code, challenge, redirectUri, server).0)
  {
    hide Sound, NothingUnspent, PairIssued, GrantRevoked;
    var consumed := CodeConsumed(db, code, now);
    CodeConsumedSound(db, code, now);
    if code in db.codes {
      var grant := db.codes[code].grantId;
      GrantRevokedSound(consumed, grant, now);
      if db.codes[code].usedAt.None? && IsActive(db, grant) {
        PairIssuedSound(consumed, grant, db.grants[grant].scopes, ResourceOr(db.codes[code].resource, server), now);
      }
    }
  }

  lemma RefreshedSound(db: Db, now: int, client: Option<string>, token: nat, scope: Option<seq<Scope>>, server: string)
    requires Sound(db)
    ensures Sound(Refreshed(db, now, client, token, scope, server).0)
  {
    hide Sound, NothingUnspent, PairIssued, GrantRevoked;
    if token in db.tokens {
      var row := db.tokens[token];
      GrantRevokedSound(db, row.grantId, now);
      TokenIsScoped(db, token);
      TokenRevokedSound(db, token, now);
      var scopes := if scope.Some? then scope.value else row.scopes;
      if row.kind == Refresh && row.revokedAt.None? && IsActive(db, row.grantId) && Within(scopes, row.scopes) {
        PairIssuedSound(TokenRevoked(db, token, now), row.grantId, scopes, ResourceOr(row.resource, server), now);
      }
    }
  }

  lemma ConsentGivenSound(db: Db, pending: Pending, tier: Tier, now: int)
    requires Sound(db)
    ensures Sound(ConsentGiven(db, pending, tier, now))
  {
    hide Sound;
    var grant := Grant(OAuthGrant, Some(pending.clientId), TierScopes(tier), None);
    GrantCreatedSound(db, grant);
    CodeIssuedSound(GrantCreated(db, grant),
                    Code(db.next, pending.clientId, pending.redirectUri, pending.codeChallenge, Some(pending.resource), now + CODE_LIFETIME_MS, None));
  }

  lemma PersonalCreatedSound(db: Db, tier: Tier)
    requires Sound(db)
    ensures Sound(PersonalCreated(db, tier).0)
  {
    hide Sound;
    var grant := Grant(TokenGrant, None, TierScopes(tier), None);
    GrantCreatedSound(db, grant);
    TokenIssuedSound(GrantCreated(db, grant), Token(db.next, Personal, None, TierScopes(tier), None, None));
  }

  lemma AfterRevokeSound(db: Db, now: int, token: nat)
    requires Sound(db)
    ensures Sound(AfterRevoke(db, now, token))
  {
    hide Sound;
    TokenRevokedSound(db, token, now);
    if token in db.tokens {
      GrantRevokedSound(db, db.tokens[token].grantId, now);
    }
  }

  lemma HandledSound(system: System, request: Request)
    requires Sound(system.db)
    ensures Sound(Handled(system, request).0.db)
  {
    hide Sound, Exchanged, Refreshed, AfterRevoke, PersonalCreated, ConsentGiven, Unexpired, FindPending, WithoutPending, GrantRevoked;
    match request
    case Authorize(_, _, _, _, _) =>
    case Consent(now, id, _, tier, _, _) =>
      var found := FindPending(Unexpired(system.pending, now), id);
      if found.Some? && tier.Some? {
        ConsentGivenSound(system.db, found.value, tier.value, now);
      }
    case ExchangeCode(now, client, code, challenge, returnsTo, server) => ExchangedSound(system.db, now, client, code, challenge, returnsTo, server);
    case RefreshTokens(now, client, token, scope, server) => RefreshedSound(system.db, now, client, token, scope, server);
    case Revoke(now, token) => AfterRevokeSound(system.db, now, token);
    case EndGrant(now, grant) => GrantRevokedSound(system.db, grant, now);
    case CreatePersonal(_, level) => PersonalCreatedSound(system.db, level);
  }

  lemma {:induction false} RunSound(requests: seq<Request>)
    ensures Sound(After(requests).db)
  {
    if requests != [] {
      hide Sound, Handled;
      RunSound(requests[..|requests| - 1]);
      HandledSound(After(requests[..|requests| - 1]), requests[|requests| - 1]);
    }
  }

  ghost function UnusedCodes(db: Db, grant: nat): set<nat> {
    set c | c in db.codes && db.codes[c].grantId == grant && db.codes[c].usedAt.None?
  }

  ghost function LiveRefreshTokens(db: Db, grant: nat): set<nat> {
    set t | t in db.tokens && db.tokens[t].grantId == grant && db.tokens[t].kind == Refresh && db.tokens[t].revokedAt.None?
  }

  /** In every run a grant has at most one unused code or unrevoked refresh token. */
  lemma OneCredentialPerGrant(requests: seq<Request>, grant: nat)
    ensures var db := After(requests).db; |UnusedCodes(db, grant)| + |LiveRefreshTokens(db, grant)| <= 1
  {
    hide After;
    var db := After(requests).db;
    RunSound(requests);
    var both := UnusedCodes(db, grant) + LiveRefreshTokens(db, grant);
    assert UnusedCodes(db, grant) !! LiveRefreshTokens(db, grant);
    assert |both| == |UnusedCodes(db, grant)| + |LiveRefreshTokens(db, grant)|;
    forall x, y | x in both && y in both
      ensures x == y
    {
      assert Unspent(db, x, grant) && Unspent(db, y, grant);
    }
    AtMostOne(both);
  }

  lemma AtMostOne<T>(s: set<T>)
    requires forall x, y :: x in s && y in s ==> x == y
    ensures |s| <= 1
  {
    if s != {} {
      var x :| x in s;
      assert s == {x};
    }
  }

  /** In every run a token that authenticates stays within the scopes of a grant that is not revoked. */
  lemma AuthenticatedWithinGrant(requests: seq<Request>, token: nat, server: string, now: int)
    ensures var db := After(requests).db; var found := Authenticated(db, token, server, now);
      found.Some? ==> IsActive(db, found.value) && Within(db.tokens[token].scopes, db.grants[found.value].scopes)
  {
    hide After;
    RunSound(requests);
  }

  // How the tables evolve.

  /** Nothing but the revocation time changes, and that only once. */
  predicate SameGrant(a: Grant, b: Grant) {
    b.(revokedAt := a.revokedAt) == a && (a.revokedAt.Some? ==> b == a)
  }

  predicate SameToken(a: Token, b: Token) {
    b.(revokedAt := a.revokedAt) == a && (a.revokedAt.Some? ==> b == a)
  }

  predicate SameCode(a: Code, b: Code) {
    b.(usedAt := a.usedAt) == a && (a.usedAt.Some? ==> b == a)
  }

  ghost predicate Evolves(a: Db, b: Db) {
    && a.next <= b.next
    && (forall g :: g in a.grants ==> g in b.grants && SameGrant(a.grants[g], b.grants[g]))
    && (forall t :: t in a.tokens ==> t in b.tokens && SameToken(a.tokens[t], b.tokens[t]))
    && (forall c :: c in b.codes && c < a.next ==> c in a.codes && SameCode(a.codes[c], b.codes[c]))
    && (forall c :: c in a.codes && c !in b.codes ==> !IsActive(b, a.codes[c].grantId))
  }

  lemma EvolvesTwice(a: Db, b: Db, c: Db)
    requires Numbered(a) && Evolves(a, b) && Evolves(b, c)
    ensures Evolves(a, c)
  {
    hide Within;
    assert forall g :: g in a.grants ==> SameGrant(a.grants[g], b.grants[g]) && SameGrant(b.grants[g], c.grants[g]);
    assert forall t :: t in a.tokens ==> SameToken(a.tokens[t], b.tokens[t]) && SameToken(b.tokens[t], c.tokens[t]);
  }

  lemma ConsumedEvolves(db: Db, code: nat, now: int)
    requires Numbered(db)
    ensures Evolves(db, CodeConsumed(db, code, now)) && Numbered(CodeConsumed(db, code, now))
  {
  }

  lemma TokenRevokedEvolves(db: Db, token: nat, now: int)
    requires Numbered(db)
    ensures Evolves(db, TokenRevoked(db, token, now)) && Numbered(TokenRevoked(db, token, now))
  {
  }

  lemma GrantRevokedEvolves(db: Db, grant: nat, now: int)
    requires Numbered(db)
    ensures Evolves(db, GrantRevoked(db, grant, now))
  {
    hide Within;
    var after := GrantRevoked(db, grant, now);
    assert forall t :: t in db.tokens ==> SameToken(db.tokens[t], EndedWith(db.tokens[t], grant, now));
    assert forall c :: c in after.codes ==> c in db.codes && after.codes[c] == db.codes[c];
  }

  lemma PairEvolves(db: Db, grant: nat, scopes: seq<Scope>, resource: string, now: int)
    requires Numbered(db)
    ensures Evolves(db, PairIssued(db, grant, scopes, resource, now).0)
  {
  }

  lemma ExchangedEvolves(db: Db, now: int, client: Option<string>, code: nat, challenge: Option<string>, redirectUri: Option<string>, server: string)
    requires Numbered(db)
    ensures Evolves(db, Exchanged(db, now, client, code, challenge, redirectUri, server).0)
  {
    hide Numbered, Evolves, CodeConsumed, GrantRevoked, PairIssued, ResourceOr, IsActive;
    SelfEvolves(db);
    if code in db.codes {
      var grant, consumed := db.codes[code].grantId, CodeConsumed(db, code, now);
      ConsumedEvolves(db, code, now);
      GrantRevokedEvolves(consumed, grant, now);
      EvolvesTwice(db, consumed, GrantRevoked(consumed, grant, now));
      if IsActive(db, grant) {
        assert grant in db.grants by { assert IsActive(db, grant); ActiveIsKnown(db, grant); }
        var scopes, resource := db.grants[grant].scopes, ResourceOr(db.codes[code].resource, server);
        PairEvolves(consumed, grant, scopes, resource, now);
        EvolvesTwice(db, consumed, PairIssued(consumed, grant, scopes, resource, now).0);
      }
    }
  }

  lemma ActiveIsKnown(db: Db, grant: nat)
    requires IsActive(db, grant)
    ensures grant in db.grants
  {
  }

  lemma RefreshedEvolves(db: Db, now: int, client: Option<string>, token: nat, scope: Option<seq<Scope>>, server: string)
    requires Numbered(db)
    ensures Evolves(db, Refreshed(db, now, client, token, scope, server).0)
  {
    hide Numbered, Evolves, TokenRevoked, GrantRevoked, PairIssued, ResourceOr, Within;
    SelfEvolves(db);
    if token in db.tokens {
      var row, rotated := db.tokens[token], TokenRevoked(db, token, now);
      GrantRevokedEvolves(db, row.grantId, now);
      TokenRevokedEvolves(db, token, now);
      var scopes, resource := if scope.Some? then scope.value else row.scopes, ResourceOr(row.resource, server);
      PairEvolves(rotated, row.grantId, scopes, resource, now);
      EvolvesTwice(db, rotated, PairIssued(rotated, row.grantId, scopes, resource, now).0);
    }
  }

  lemma HandledEvolves(system: System, request: Request)
    requires Numbered(system.db)
    ensures Evolves(system.db, Handled(system, request).0.db)
  {
    hide Evolves, Numbered, Exchanged, Refreshed, GrantRevoked, TokenRevoked, Unexpired, FindPending, WithoutPending, ConsentGiven, PersonalCreated;
    var db := system.db;
    SelfEvolves(db);
    match request
    case ExchangeCode(now, client, code, challenge, returnsTo, server) => ExchangedEvolves(db, now, client, code, challenge, returnsTo, server);
    case RefreshTokens(now, client, token, scope, server) => RefreshedEvolves(db, now, client, token, scope, server);
    case Revoke(now, token) =>
      TokenRevokedEvolves(db, token, now);
      if token in db.tokens { GrantRevokedEvolves(db, db.tokens[token].grantId, now); }
    case EndGrant(now, grant) => GrantRevokedEvolves(db, grant, now);
    case Authorize(_, _, _, _, _) =>
    case Consent(now, id, _, tier, _, _) =>
      var found := FindPending(Unexpired(system.pending, now), id);
      if found.Some? && tier.Some? { ConsentGivenEvolves(db, found.value, tier.value, now); }
    case CreatePersonal(_, level) => PersonalCreatedEvolves(db, level);
  }

  lemma ConsentGivenEvolves(db: Db, pending: Pending, tier: Tier, now: int)
    requires Numbered(db)
    ensures Evolves(db, ConsentGiven(db, pending, tier, now))
  {
  }

  lemma PersonalCreatedEvolves(db: Db, tier: Tier)
    requires Numbered(db)
    ensures Evolves(db, PersonalCreated(db, tier).0)
  {
  }

  lemma {:induction false} RunEvolves(requests: seq<Request>, more: seq<Request>)
    ensures Evolves(After(requests).db, After(requests + more).db)
  {
    hide Sound, Numbered, Evolves, Handled;
    RunIsNumbered(requests);
    if more == [] {
      assert requests + more == requests;
      SelfEvolves(After(requests).db);
    } else {
      var front := more[..|more| - 1];
      assert (requests + more)[..|requests + more| - 1] == requests + front;
      RunEvolves(requests, front);
      RunIsNumbered(requests + front);
      HandledEvolves(After(requests + front), more[|more| - 1]);
      EvolvesTwice(After(requests).db, After(requests + front).db, After(requests + more).db);
    }
  }

  lemma SelfEvolves(db: Db)
    ensures Evolves(db, db)
  {
  }

  lemma RunIsNumbered(requests: seq<Request>)
    ensures Numbered(After(requests).db)
  {
    hide After;
    RunSound(requests);
  }

  /** A revoked grant stays revoked, has no code and no unrevoked token, and none of its tokens authenticates again. */
  lemma RevokedForever(requests: seq<Request>, more: seq<Request>, grant: nat)
    requires grant in After(requests).db.grants && !IsActive(After(requests).db, grant)
    ensures var db := After(requests + more).db;
      && grant in db.grants && !IsActive(db, grant)
      && (forall c :: c in db.codes ==> db.codes[c].grantId != grant)
      && (forall t :: t in db.tokens && db.tokens[t].grantId == grant ==> db.tokens[t].revokedAt.Some?)
      && (forall t, server, now :: Authenticated(db, t, server, now) != Some(grant))
  {
    hide After;
    RunEvolves(requests, more);
    RunSound(requests + more);
  }

  // Codes.

  /** The request gets as far as consuming the code it presents. */
  predicate Presents(request: Request, code: nat) {
    request.ExchangeCode? && request.code == code && request.client.Some? && request.challenge.Some?
  }

  lemma AppendStep(requests: seq<Request>, request: Request)
    ensures After(requests + [request]) == Handled(After(requests), request).0
  {
    assert (requests + [request])[..|requests + [request]| - 1] == requests;
  }

  /** Presenting a known code once, whatever comes of it, leaves it used, or its grant revoked. */
  lemma PresentingSpends(db: Db, request: Request, code: nat)
    requires Numbered(db) && Presents(request, code) && code in db.codes
    ensures var after := Exchanged(db, request.now, request.client, code, request.challenge, request.returnsTo, request.server).0;
      && (code in after.codes ==> after.codes[code].usedAt.Some?)
      && (db.codes[code].usedAt.Some? ==> !IsActive(after, db.codes[code].grantId))
  {
  }

  lemma HandlesExchange(system: System, request: Request)
    requires request.ExchangeCode?
    ensures Handled(system, request) ==
      WithDb(system, Exchanged(system.db, request.now, request.client, request.code, request.challenge, request.returnsTo, request.server))
  {
  }

  lemma HandlesRefresh(system: System, request: Request)
    requires request.RefreshTokens?
    ensures Handled(system, request) == WithDb(system, Refreshed(system.db, request.now, request.client, request.token, request.scope, request.server))
  {
  }

  /** A code is good for one attempt: after it, no request ever gets tokens for the code, and presenting it again
      ends its grant. */
  lemma CodeWorksOnce(before: seq<Request>, first: Request, between: seq<Request>, second: Request, code: nat)
    requires code in After(before).db.codes && Presents(first, code)
    requires second.ExchangeCode? && second.code == code
    ensures !ReplyTo(before + [first] + between, second).Tokens?
    ensures Presents(second, code) ==> !IsActive(After(before + [first] + between + [second]).db, After(before).db.codes[code].grantId)
  {
    hide After, Handled;
    var grant := After(before).db.codes[code].grantId;
    var start, middle, late := After(before).db, After(before + [first]).db, After(before + [first] + between);
    RunSound(before);
    RunEvolves(before, [first]);
    RunEvolves(before + [first], between);
    RunEvolves(before + [first] + between, [second]);
    RunIsNumbered(before + [first] + between);
    AppendStep(before, first);
    HandlesExchange(After(before), first);
    PresentingSpends(start, first, code);
    AppendStep(before + [first] + between, second);
    HandlesExchange(late, second);
    assert grant in start.grants;
    if code in late.db.codes {
      assert code in middle.codes && late.db.codes[code].usedAt.Some?;
      if Presents(second, code) { PresentingSpends(late.db, second, code); }
    }
  }

  // Refresh tokens.

  lemma RefreshRotates(db: Db, request: Request)
    requires Numbered(db) && request.RefreshTokens?
    requires Refreshed(db, request.now, request.client, request.token, request.scope, request.server).1.Tokens?
    ensures request.client.Some? && request.token in db.tokens && db.tokens[request.token].kind == Refresh
    ensures var after := Refreshed(db, request.now, request.client, request.token, request.scope, request.server).0;
      request.token in after.tokens && after.tokens[request.token] == db.tokens[request.token].(revokedAt := Some(request.now))
    ensures db.tokens[request.token].grantId in db.grants && db.grants[db.tokens[request.token].grantId].clientId == request.client
  {
    hide Within;
  }

  lemma RefreshAgain(db: Db, request: Request, at: int)
    requires Numbered(db) && request.RefreshTokens? && request.token in db.tokens
    requires db.tokens[request.token].kind == Refresh && db.tokens[request.token].revokedAt == Some(at)
    ensures var (after, reply) := Refreshed(db, request.now, request.client, request.token, request.scope, request.server);
      var grant := db.tokens[request.token].grantId;
      && !reply.Tokens?
      && (request.client.Some? && db.grants[grant].clientId == request.client && request.now - at > ROTATION_GRACE_MS ==> !IsActive(after, grant))
      && (request.now - at <= ROTATION_GRACE_MS ==> after == db)
  {
    hide Within;
  }

  /** A refresh token is exchanged at most once. Presented again by its client after the grace period it ends its
      grant; within the grace period the second request changes nothing. */
  lemma RefreshWorksOnce(before: seq<Request>, first: Request, between: seq<Request>, second: Request)
    requires first.RefreshTokens? && ReplyTo(before, first).Tokens?
    requires second.RefreshTokens? && second.token == first.token
    ensures !ReplyTo(before + [first] + between, second).Tokens?
    ensures first.token in After(before).db.tokens
    ensures second.client == first.client && second.now - first.now > ROTATION_GRACE_MS ==>
      !IsActive(After(before + [first] + between + [second]).db, After(before).db.tokens[first.token].grantId)
    ensures second.now - first.now <= ROTATION_GRACE_MS ==>
      After(before + [first] + between + [second]).db == After(before + [first] + between).db
  {
    hide After, Handled, Refreshed;
    var start, middle, late := After(before).db, After(before + [first]).db, After(before + [first] + between);
    RunIsNumbered(before);
    HandlesRefresh(After(before), first);
    RefreshRotates(start, first);
    AppendStep(before, first);
    RunEvolves(before, [first]);
    RunEvolves(before + [first], between);
    RunIsNumbered(before + [first] + between);
    AppendStep(before + [first] + between, second);
    HandlesRefresh(late, second);
    var grant := start.tokens[first.token].grantId;
    assert late.db.tokens[first.token] == middle.tokens[first.token];
    assert late.db.grants[grant].clientId == start.grants[grant].clientId;
    RefreshAgain(late.db, second, first.now);
  }

  /** `reply` announces one new access and one new refresh token, which is now the grant's credential. */
  ghost predicate PairFollows(start: Db, after: Db, request: Request, reply: Reply) {
    && reply.Tokens? && (request.ExchangeCode? || request.RefreshTokens?)
    && reply.access !in start.tokens && reply.refresh !in start.tokens && reply.access != reply.refresh
    && reply.access in after.tokens && reply.refresh in after.tokens
    && var access, refresh := after.tokens[reply.access], after.tokens[reply.refresh];
    && access.kind == Access && refresh.kind == Refresh
    && access.scopes == reply.scopes && refresh.scopes == reply.scopes
    && access.expiresAt == Some(request.now + ACCESS_TOKEN_LIFETIME_MS)
    && refresh.expiresAt == Some(request.now + REFRESH_TOKEN_LIFETIME_MS)
    && access.grantId == refresh.grantId && access.revokedAt.None? && Unspent(after, reply.refresh, refresh.grantId)
    && (request.RefreshTokens? ==> request.token in start.tokens && refresh.grantId == start.tokens[request.token].grantId)
    && (request.RefreshTokens? ==> Within(reply.scopes, start.tokens[request.token].scopes))
    && (request.ExchangeCode? ==> request.code in start.codes && refresh.grantId == start.codes[request.code].grantId)
    && (request.ExchangeCode? ==> refresh.grantId in start.grants && reply.scopes == start.grants[refresh.grantId].scopes)
  }

  /** A successful exchange or refresh adds one access and one refresh token of the same grant, both with the scopes
      of the answer; a refresh never widens them, and afterwards the new refresh token is the grant's only credential. */
  lemma TokensOfReply(before: seq<Request>, request: Request)
    requires ReplyTo(before, request).Tokens?
    ensures PairFollows(After(before).db, After(before + [request]).db, request, ReplyTo(before, request))
  {
    AppendStep(before, request);
    RunSound(before);
    hide After, Sound, ScopesWithinGrants, Closed, SingleCredential;
    TokensOfHandled(After(before), request);
  }

  lemma TokensOfHandled(system: System, request: Request)
    requires Sound(system.db) && Handled(system, request).1.Tokens?
    ensures PairFollows(system.db, Handled(system, request).0.db, request, Handled(system, request).1)
  {
    assert request.ExchangeCode? || request.RefreshTokens?;
  }

  // A code that is used in time works.

  /** A code nobody presents keeps its row for as long as its grant is not revoked. */
  lemma CodeKept(system: System, request: Request, code: nat)
    requires Numbered(system.db) && code in system.db.codes && !Presents(request, code)
    requires IsActive(Handled(system, request).0.db, system.db.codes[code].grantId)
    ensures code in Handled(system, request).0.db.codes && Handled(system, request).0.db.codes[code] == system.db.codes[code]
  {
    hide Unexpired, FindPending, WithoutPending, Within;
  }

  lemma {:induction false} CodeKeptInRun(requests: seq<Request>, more: seq<Request>, code: nat)
    requires code in After(requests).db.codes
    requires forall r :: r in more ==> !Presents(r, code)
    requires IsActive(After(requests + more).db, After(requests).db.codes[code].grantId)
    ensures code in After(requests + more).db.codes && After(requests + more).db.codes[code] == After(requests).db.codes[code]
  {
    hide Handled, Presents;
    if more == [] {
      assert requests + more == requests;
    } else {
      var front, last := more[..|more| - 1], more[|more| - 1];
      var grant := After(requests).db.codes[code].grantId;
      assert (requests + front) + [last] == requests + more;
      RunIsNumbered(requests);
      RunEvolves(requests, front);
      RunEvolves(requests + front, [last]);
      assert forall r :: r in front ==> r in more;
      CodeKeptInRun(requests, front, code);
      RunIsNumbered(requests + front);
      AppendStep(requests + front, last);
      CodeKept(After(requests + front), last, code);
    }
  }

  /** The first attempt with a code succeeds, with exactly the scopes of the chosen tier, when the client that asked
      makes it in time with the matching verifier and the owner has not revoked the grant. */
  lemma FreshCodeWorks(before: seq<Request>, consent: Request, between: seq<Request>, exchange: Request, asked: Pending)
    requires consent.Consent? && ReplyTo(before, consent).Granted? && consent.tier.Some?
    requires FindPending(Unexpired(After(before).pending, consent.now), consent.request) == Some(asked)
    requires forall r :: r in between ==> !Presents(r, ReplyTo(before, consent).code)
    requires IsActive(After(before + [consent] + between).db, ReplyTo(before, consent).grant)
    requires exchange.ExchangeCode? && exchange.code == ReplyTo(before, consent).code
    requires exchange.client == Some(asked.clientId) && exchange.challenge == Some(asked.codeChallenge)
    requires exchange.returnsTo.None? || exchange.returnsTo == Some(asked.redirectUri)
    requires exchange.now < consent.now + CODE_LIFETIME_MS
    ensures var reply := ReplyTo(before + [consent] + between, exchange);
      reply.Tokens? && reply.scopes == TierScopes(consent.tier.value)
  {
    hide After, Unexpired, FindPending, WithoutPending, Presents;
    var grant, code := ReplyTo(before, consent).grant, ReplyTo(before, consent).code;
    var granted, late := After(before + [consent]).db, After(before + [consent] + between).db;
    AppendStep(before, consent);
    assert code in granted.codes && granted.codes[code] ==
      Code(grant, asked.clientId, asked.redirectUri, asked.codeChallenge, Some(asked.resource), consent.now + CODE_LIFETIME_MS, None);
    assert grant in granted.grants && granted.grants[grant].scopes == TierScopes(consent.tier.value);
    CodeKeptInRun(before + [consent], between, code);
    RunEvolves(before + [consent], between);
    assert late.codes[code] == granted.codes[code];
  }

  // Consent pages.

  ghost predicate PendingSound(system: System) {
    && |system.pending| <= MAX_PENDING
    && (forall p :: p in system.pending ==> p.0 < system.nextRequest)
  }

  lemma PendingSoundStep(system: System, next: Request)
    requires PendingSound(system)
    ensures PendingSound(Handled(system, next).0)
  {
    hide Unexpired, FindPending, WithoutPending, Exchanged, Refreshed, AfterRevoke, GrantEnded, PersonalCreated, ConsentGiven;
  }

  /** At most a hundred consent pages wait for an answer. */
  lemma {:induction false} RunPendingSound(requests: seq<Request>)
    ensures PendingSound(After(requests))
  {
    if requests != [] {
      hide Handled, PendingSound;
      RunPendingSound(requests[..|requests| - 1]);
      PendingSoundStep(After(requests[..|requests| - 1]), requests[|requests| - 1]);
    }
  }

  lemma Regroup<T>(a: seq<T>, b: seq<T>)
    requires b != []
    ensures a + b == (a + b[..|b| - 1]) + [b[|b| - 1]]
  {
  }

  /** The consent page was shown before and no longer waits for an answer. */
  ghost predicate Gone(system: System, request: nat) {
    request < system.nextRequest && forall p :: p in system.pending ==> p.0 != request
  }

  lemma {:induction false} PendingGone(requests: seq<Request>, more: seq<Request>, request: nat)
    requires Gone(After(requests), request)
    ensures Gone(After(requests + more), request)
    decreases |more|
  {
    if more == [] {
      assert requests + more == requests;
    } else {
      hide After, Handled, Gone;
      var front, last := more[..|more| - 1], more[|more| - 1];
      var before := requests + front;
      PendingGone(requests, front, request);
      assert requests + more == before + [last] by { Regroup(requests, more); }
      AppendStep(before, last);
      PendingGoneStep(After(before), last, request);
    }
  }

  lemma PendingGoneStep(system: System, next: Request, request: nat)
    requires Gone(system, request)
    ensures Gone(Handled(system, next).0, request)
  {
    hide Unexpired, FindPending, WithoutPending, Exchanged, Refreshed, AfterRevoke, GrantEnded, PersonalCreated, ConsentGiven;
  }

  /** A consent page is answered at most once: whatever the first answer was, a second one grants nothing. */
  lemma ConsentAnsweredOnce(before: seq<Request>, first: Request, between: seq<Request>, second: Request)
    requires first.Consent? && first.request < After(before).nextRequest
    requires second.Consent? && second.request == first.request
    ensures ReplyTo(before + [first] + between, second) == Refused(RequestExpired)
  {
    AppendStep(before, first);
    hide After, Unexpired, WithoutPending, FindPending, ConsentGiven;
    PendingGone(before + [first], between, first.request);
    var waiting := Unexpired(After(before + [first] + between).pending, second.now);
    assert FindPending(waiting, second.request).None?;
  }
}
