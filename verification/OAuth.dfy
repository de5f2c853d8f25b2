/** The OAuth endpoints: consent, token exchange, refresh rotation, revocation and bearer authentication. */
module OAuth {
  import opened PriorityQueue
  import opened AgentAccess

  const ACCESS_TOKEN_LIFETIME_MS := 60 * 60 * 1000
  const REFRESH_TOKEN_LIFETIME_MS := 30 * 24 * 60 * 60 * 1000
  const CODE_LIFETIME_MS := 5 * 60 * 1000
  const PENDING_LIFETIME_MS := 10 * 60 * 1000
  const ROTATION_GRACE_MS := 30 * 1000
  const MAX_PENDING := 100

  datatype Pending = Pending(clientId: string, redirectUri: string, codeChallenge: string, resource: string, expiresAt: int)

  /** The tables and the consent pages that wait for an answer, oldest first. */
  datatype System = System(db: Db, pending: seq<(nat, Pending)>, nextRequest: nat)

  /** Why a request is turned down. */
  datatype Refusal =
    | InvalidClient | InvalidRequest | UnknownCode | CodeReused | CodeMismatch | Revoked
    | UnknownRefreshToken | RefreshReused | RefreshExpired | InvalidScope
    | RequestExpired | AccessDenied | InvalidChoice | NoAccountChosen | AgentNotFound

  datatype Reply =
    | Refused(why: Refusal)
    | Tokens(access: nat, refresh: nat, scopes: seq<Scope>)
    | Asked(request: nat)
    | Granted(grant: nat, code: nat)
    | PersonalIssued(token: nat)
    | Done

  /** A request an endpoint handles. `client` is the client that authenticated, if any; `challenge` is the S256
      challenge of the verifier, if code and verifier are well-formed; `scope` lists the known scopes asked for;
      `server` is the address of this server's resource. */
  datatype Request =
    | Authorize(now: int, clientId: string, redirectUri: string, codeChallenge: string, server: string)
    | Consent(now: int, request: nat, allow: bool, tier: Option<Tier>, clientKnown: bool, accountsChosen: bool)
    | ExchangeCode(now: int, client: Option<string>, code: nat, challenge: Option<string>, returnsTo: Option<string>, server: string)
    | RefreshTokens(now: int, client: Option<string>, token: nat, scope: Option<seq<Scope>>, server: string)
    | Revoke(now: int, token: nat)
    | EndGrant(now: int, grant: nat)
    | CreatePersonal(now: int, level: Tier)

  // Consent.

  function Unexpired(pending: seq<(nat, Pending)>, now: int): (r: seq<(nat, Pending)>)
    ensures forall p :: p in r <==> p in pending && p.1.expiresAt > now
    ensures |r| <= |pending|
  {
    if pending == [] then []
    else
      var rest := Unexpired(pending[..|pending| - 1], now);
      assert forall p :: p in pending <==> p in pending[..|pending| - 1] || p == pending[|pending| - 1];
      if pending[|pending| - 1].1.expiresAt > now then rest + [pending[|pending| - 1]] else rest
  }

  function FindPending(pending: seq<(nat, Pending)>, request: nat): (r: Option<Pending>)
    ensures r.Some? ==> (request, r.value) in pending
    ensures r.None? ==> forall p :: p in pending ==> p.0 != request
  {
    if pending == [] then None
    else if pending[0].0 == request then Some(pending[0].1)
    else
      assert forall p :: p in pending <==> p in pending[1..] || p == pending[0];
      FindPending(pending[1..], request)
  }

  function WithoutPending(pending: seq<(nat, Pending)>, request: nat): (r: seq<(nat, Pending)>)
    ensures forall p :: p in r <==> p in pending && p.0 != request
    ensures |r| <= |pending|
  {
    if pending == [] then []
    else
      var rest := WithoutPending(pending[..|pending| - 1], request);
      assert forall p :: p in pending <==> p in pending[..|pending| - 1] || p == pending[|pending| - 1];
      if pending[|pending| - 1].0 != request then rest + [pending[|pending| - 1]] else rest
  }

  function Authorized(system: System, now: int, clientId: string, redirectUri: string, codeChallenge: string, server: string): (System, Reply) {
    var waiting := Unexpired(system.pending, now);
    var room := if |waiting| >= MAX_PENDING then waiting[1..] else waiting;
    var asked := Pending(clientId, redirectUri, codeChallenge, server, now + PENDING_LIFETIME_MS);
    (System(system.db, room + [(system.nextRequest, asked)], system.nextRequest + 1), Asked(system.nextRequest))
  }

  /** A grant with its one code. */
  function ConsentGiven(db: Db, pending: Pending, tier: Tier, now: int): Db {
    var granted := GrantCreated(db, Grant(OAuthGrant, Some(pending.clientId), TierScopes(tier), None));
    CodeIssued(granted, Code(db.next, pending.clientId, pending.redirectUri, pending.codeChallenge, Some(pending.resource), now + CODE_LIFETIME_MS, None))
  }

  function Consented(system: System, now: int, request: nat, allow: bool, tier: Option<Tier>, clientKnown: bool, accountsChosen: bool): (System, Reply) {
    var waiting := Unexpired(system.pending, now);
    var left := system.(pending := WithoutPending(waiting, request));
    match FindPending(waiting, request)
    case None => (left, Refused(RequestExpired))
    case Some(pending) =>
      if !allow then (left, Refused(AccessDenied))
      else if tier.None? || !clientKnown then (left, Refused(InvalidChoice))
      else if !accountsChosen then (left, Refused(NoAccountChosen))
      else (left.(db := ConsentGiven(system.db, pending, tier.value, now)), Granted(system.db.next, system.db.next + 1))
  }

  // Tokens.

  function ResourceOr(resource: Option<string>, server: string): string {
    if resource.Some? then resource.value else server
  }

  /** One access and one refresh token. */
  function PairIssued(db: Db, grant: nat, scopes: seq<Scope>, resource: string, now: int): (Db, Reply) {
    var access := Token(grant, Access, Some(resource), scopes, Some(now + ACCESS_TOKEN_LIFETIME_MS), None);
    var refresh := Token(grant, Refresh, Some(resource), scopes, Some(now + REFRESH_TOKEN_LIFETIME_MS), None);
    (TokenIssued(TokenIssued(db, access), refresh), Tokens(db.next, db.next + 1, scopes))
  }

  predicate IsActive(db: Db, grant: nat) {
    grant in db.grants && db.grants[grant].revokedAt.None?
  }

  function Exchanged(db: Db, now: int, client: Option<string>, code: nat, challenge: Option<string>, redirectUri: Option<string>, server: string): (Db, Reply) {
    if client.None? then (db, Refused(InvalidClient))
    else if challenge.None? then (db, Refused(InvalidRequest))
    else if code !in db.codes then (db, Refused(UnknownCode))
    else
      var row := db.codes[code];
      var consumed := CodeConsumed(db, code, now);
      if row.usedAt.Some? then (GrantRevoked(consumed, row.grantId, now), Refused(CodeReused))
      else if row.expiresAt <= now || row.clientId != client.value
              || (redirectUri.Some? && redirectUri.value != row.redirectUri) || challenge.value != row.codeChallenge then
        (consumed, Refused(CodeMismatch))
      else if !IsActive(db, row.grantId) then (consumed, Refused(Revoked))
      else PairIssued(consumed, row.grantId, db.grants[row.grantId].scopes, ResourceOr(row.resource, server), now)
  }

  function Refreshed(db: Db, now: int, client: Option<string>, token: nat, scope: Option<seq<Scope>>, server: string): (Db, Reply) {
    if client.None? then (db, Refused(InvalidClient))
    else if token !in db.tokens || db.tokens[token].kind != Refresh then (db, Refused(UnknownRefreshToken))
    else
      var row := db.tokens[token];
      if !IsActive(db, row.grantId) || db.grants[row.grantId].clientId != client then (db, Refused(Revoked))
      else if row.revokedAt.Some? then
        (if now - row.revokedAt.value > ROTATION_GRACE_MS then GrantRevoked(db, row.grantId, now) else db, Refused(RefreshReused))
      else if row.expiresAt.Some? && row.expiresAt.value <= now then (db, Refused(RefreshExpired))
      else if scope.Some? && (scope.value == [] || !Within(scope.value, row.scopes)) then (db, Refused(InvalidScope))
      else
        PairIssued(TokenRevoked(db, token, now), row.grantId, if scope.Some? then scope.value else row.scopes, ResourceOr(row.resource, server), now)
  }

  function AfterRevoke(db: Db, now: int, token: nat): Db {
    if token !in db.tokens then db
    else if db.tokens[token].kind == Access then TokenRevoked(db, token, now)
    else GrantRevoked(db, db.tokens[token].grantId, now)
  }

  function GrantEnded(db: Db, now: int, grant: nat): (Db, Reply) {
    (GrantRevoked(db, grant, now), if IsActive(db, grant) then Done else Refused(AgentNotFound))
  }

  function PersonalCreated(db: Db, tier: Tier): (Db, Reply) {
    var granted := GrantCreated(db, Grant(TokenGrant, None, TierScopes(tier), None));
    (TokenIssued(granted, Token(db.next, Personal, None, TierScopes(tier), None, None)), PersonalIssued(db.next + 1))
  }

  /** What a bearer token may do at a server, if anything: its grant. */
  function Authenticated(db: Db, token: nat, server: string, now: int): Option<nat> {
    if token !in db.tokens || db.tokens[token].revokedAt.Some? || db.tokens[token].kind == Refresh then None
    else
      var row := db.tokens[token];
      if row.expiresAt.Some? && row.expiresAt.value <= now then None
      else if row.resource.Some? && row.resource.value != server then None
      else if !IsActive(db, row.grantId) then None
      else Some(row.grantId)
  }

  function WithDb(system: System, handled: (Db, Reply)): (System, Reply) {
    (system.(db := handled.0), handled.1)
  }

  function Handled(system: System, request: Request): (System, Reply) {
    match request
    case Authorize(now, clientId, redirectUri, codeChallenge, server) => Authorized(system, now, clientId, redirectUri, codeChallenge, server)
    case Consent(now, id, allow, tier, clientKnown, accountsChosen) => Consented(system, now, id, allow, tier, clientKnown, accountsChosen)
    case ExchangeCode(now, client, code, challenge, redirectUri, server) =>
      WithDb(system, Exchanged(system.db, now, client, code, challenge, redirectUri, server))
    case RefreshTokens(now, client, token, scope, server) => WithDb(system, Refreshed(system.db, now, client, token, scope, server))
    case Revoke(now, token) => WithDb(system, (AfterRevoke(system.db, now, token), Done))
    case EndGrant(now, grant) => WithDb(system, GrantEnded(system.db, now, grant))
    case CreatePersonal(now, tier) => WithDb(system, PersonalCreated(system.db, tier))
  }

  class OAuthRoutes {
    const store: AgentAccessStore
    var pending: seq<(nat, Pending)>
    var nextRequest: nat

    ghost function State(): System
      reads this, store
    {
      System(store.State(), pending, nextRequest)
    }

    constructor (store: AgentAccessStore)
      ensures this.store == store && State() == System(store.State(), [], 0)
    {
      this.store, pending, nextRequest := store, [], 0;
    }

    /** Drops what has expired and takes out one waiting consent page. */
    method TakePending(request: nat, now: int) returns (found: Option<Pending>)
      modifies this`pending
      ensures pending == WithoutPending(Unexpired(old(pending), now), request)
      ensures found == FindPending(Unexpired(old(pending), now), request)
    {
      var waiting := Unexpired(pending, now);
      found := FindPending(waiting, request);
      pending := WithoutPending(waiting, request);
    }

    method GetAuthorize(now: int, clientId: string, redirectUri: string, codeChallenge: string, server: string) returns (reply: Reply)
      modifies this
      ensures (State(), reply) == Authorized(old(State()), now, clientId, redirectUri, codeChallenge, server)
    {
      pending := Unexpired(pending, now);
      if |pending| >= MAX_PENDING {
        pending := pending[1..];
      }
      reply := Asked(nextRequest);
      pending := pending + [(nextRequest, Pending(clientId, redirectUri, codeChallenge, server, now + PENDING_LIFETIME_MS))];
      nextRequest := nextRequest + 1;
    }

    method PostAuthorize(now: int, request: nat, allow: bool, tier: Option<Tier>, clientKnown: bool, accountsChosen: bool) returns (reply: Reply)
      modifies this, store
      ensures (State(), reply) == Consented(old(State()), now, request, allow, tier, clientKnown, accountsChosen)
    {
      var found := TakePending(request, now);
      if found.None? {
        return Refused(RequestExpired);
      }
      if !allow {
        return Refused(AccessDenied);
      }
      if tier.None? || !clientKnown {
        return Refused(InvalidChoice);
      }
      if !accountsChosen {
        return Refused(NoAccountChosen);
      }
      var asked := found.value;
      var grant := store.CreateGrant(OAuthGrant, Some(asked.clientId), TierScopes(tier.value));
      var code := store.IssueCode(grant, asked.clientId, asked.redirectUri, asked.codeChallenge, Some(asked.resource), now + CODE_LIFETIME_MS);
      reply := Granted(grant, code);
    }

    method TokenResponse(grant: nat, scopes: seq<Scope>, resource: string, now: int) returns (reply: Reply)
      modifies store
      ensures (store.State(), reply) == PairIssued(old(store.State()), grant, scopes, resource, now)
    {
      var access := store.IssueToken(grant, Access, scopes, Some(resource), Some(now + ACCESS_TOKEN_LIFETIME_MS));
      var refresh := store.IssueToken(grant, Refresh, scopes, Some(resource), Some(now + REFRESH_TOKEN_LIFETIME_MS));
      reply := Tokens(access, refresh, scopes);
    }

    method PostTokenByCode(now: int, client: Option<string>, code: nat, challenge: Option<string>, redirectUri: Option<string>, server: string)
      returns (reply: Reply)
      modifies store
      ensures (store.State(), reply) == Exchanged(old(store.State()), now, client, code, challenge, redirectUri, server)
    {
      if client.None? {
        return Refused(InvalidClient);
      }
      if challenge.None? {
        return Refused(InvalidRequest);
      }
      var row := store.ConsumeCode(code, now);
      if row.None? {
        return Refused(UnknownCode);
      }
      if row.value.usedAt.Some? {
        var _ := store.RevokeGrant(row.value.grantId, now);
        return Refused(CodeReused);
      }
      if row.value.expiresAt <= now || row.value.clientId != client.value
         || (redirectUri.Some? && redirectUri.value != row.value.redirectUri) || challenge.value != row.value.codeChallenge {
        return Refused(CodeMismatch);
      }
      var grant := row.value.grantId;
      if grant !in store.grants || store.grants[grant].revokedAt.Some? {
        return Refused(Revoked);
      }
      reply := TokenResponse(grant, store.grants[grant].scopes, ResourceOr(row.value.resource, server), now);
    }

    method PostTokenByRefresh(now: int, client: Option<string>, token: nat, scope: Option<seq<Scope>>, server: string) returns (reply: Reply)
      modifies store
      ensures (store.State(), reply) == Refreshed(old(store.State()), now, client, token, scope, server)
    {
      if client.None? {
        return Refused(InvalidClient);
      }
      if token !in store.tokens || store.tokens[token].kind != Refresh {
        return Refused(UnknownRefreshToken);
      }
      var row := store.tokens[token];
      var grant := row.grantId;
      if grant !in store.grants || store.grants[grant].revokedAt.Some? || store.grants[grant].clientId != client {
        return Refused(Revoked);
      }
      if row.revokedAt.Some? {
        if now - row.revokedAt.value > ROTATION_GRACE_MS {
          var _ := store.RevokeGrant(grant, now);
        }
        return Refused(RefreshReused);
      }
      if row.expiresAt.Some? && row.expiresAt.value <= now {
        return Refused(RefreshExpired);
      }
      var scopes := row.scopes;
      if scope.Some? {
        if scope.value == [] || !Within(scope.value, row.scopes) {
          return Refused(InvalidScope);
        }
        scopes := scope.value;
      }
      store.RevokeToken(token, now);
      reply := TokenResponse(grant, scopes, ResourceOr(row.resource, server), now);
    }

    method PostRevoke(now: int, token: nat)
      modifies store
      ensures store.State() == AfterRevoke(old(store.State()), now, token)
    {
      if token in store.tokens {
        if store.tokens[token].kind == Access {
          store.RevokeToken(token, now);
        } else {
          var _ := store.RevokeGrant(store.tokens[token].grantId, now);
        }
      }
    }

    method DeleteAgent(now: int, grant: nat) returns (reply: Reply)
      modifies store
      ensures (store.State(), reply) == GrantEnded(old(store.State()), now, grant)
    {
      var changed := store.RevokeGrant(grant, now);
      reply := if changed then Done else Refused(AgentNotFound);
    }

    method PostPersonalToken(tier: Tier) returns (reply: Reply)
      modifies store
      ensures (store.State(), reply) == PersonalCreated(old(store.State()), tier)
    {
      var grant := store.CreateGrant(TokenGrant, None, TierScopes(tier));
      var token := store.IssueToken(grant, Personal, TierScopes(tier), None, None);
      reply := PersonalIssued(token);
    }
  }
}
