/** The store behind agent access: grants, authorization codes and tokens. */
module AgentAccess {
  import opened PriorityQueue

  datatype Scope = MailRead | MailPropose | MailDraft | MailAct

  datatype Tier = ReadTier | ProposeTier | ActTier

  function TierScopes(tier: Tier): seq<Scope> {
    match tier
    case ReadTier => [MailRead]
    case ProposeTier => [MailRead, MailPropose, MailDraft]
    case ActTier => [MailRead, MailPropose, MailDraft, MailAct]
  }

  datatype GrantKind = OAuthGrant | TokenGrant

  /** Times are in milliseconds. */
  datatype Grant = Grant(kind: GrantKind, clientId: Option<string>, scopes: seq<Scope>, revokedAt: Option<int>)

  datatype Code = Code(
    grantId: nat, clientId: string, redirectUri: string, codeChallenge: string, resource: Option<string>,
    expiresAt: int, usedAt: Option<int>)

  datatype TokenKind = Access | Refresh | Personal

  datatype Token = Token(
    grantId: nat, kind: TokenKind, resource: Option<string>, scopes: seq<Scope>, expiresAt: Option<int>, revokedAt: Option<int>)

  /** The three tables. A code or token stands for its own secret and its hash; ids and secrets from `next` on have
      never been given out. */
  datatype Db = Db(grants: map<nat, Grant>, codes: map<nat, Code>, tokens: map<nat, Token>, next: nat)

  predicate Within(scopes: seq<Scope>, allowed: seq<Scope>) {
    forall scope :: scope in scopes ==> scope in allowed
  }

  function GrantCreated(db: Db, grant: Grant): Db {
    db.(grants := db.grants[db.next := grant], next := db.next + 1)
  }

  function CodeIssued(db: Db, code: Code): Db {
    db.(codes := db.codes[db.next := code], next := db.next + 1)
  }

  function TokenIssued(db: Db, token: Token): Db {
    db.(tokens := db.tokens[db.next := token], next := db.next + 1)
  }

  function CodeConsumed(db: Db, code: nat, now: int): Db {
    if code in db.codes && db.codes[code].usedAt.None? then db.(codes := db.codes[code := db.codes[code].(usedAt := Some(now))])
    else db
  }

  function TokenRevoked(db: Db, token: nat, now: int): Db {
    if token in db.tokens && db.tokens[token].revokedAt.None? then
      db.(tokens := db.tokens[token := db.tokens[token].(revokedAt := Some(now))])
    else db
  }

  function Ended(grant: Grant, now: int): Grant {
    if grant.revokedAt.None? then grant.(revokedAt := Some(now)) else grant
  }

  function EndedWith(token: Token, grant: nat, now: int): Token {
    if token.grantId == grant && token.revokedAt.None? then token.(revokedAt := Some(now)) else token
  }

  function GrantRevoked(db: Db, id: nat, now: int): Db {
    Db(if id in db.grants then db.grants[id := Ended(db.grants[id], now)] else db.grants,
       map code | code in db.codes && db.codes[code].grantId != id :: db.codes[code],
       map token | token in db.tokens :: EndedWith(db.tokens[token], id, now),
       db.next)
  }

  class AgentAccessStore {
    var grants: map<nat, Grant>
    var codes: map<nat, Code>
    var tokens: map<nat, Token>
    var next: nat

    ghost function State(): Db
      reads this
    {
      Db(grants, codes, tokens, next)
    }

    constructor ()
      ensures State() == Db(map[], map[], map[], 0)
    {
      grants, codes, tokens, next := map[], map[], map[], 0;
    }

    method CreateGrant(kind: GrantKind, clientId: Option<string>, scopes: seq<Scope>) returns (id: nat)
      modifies this
      ensures id == old(next) && State() == GrantCreated(old(State()), Grant(kind, clientId, scopes, None))
    {
      id, next := next, next + 1;
      grants := grants[id := Grant(kind, clientId, scopes, None)];
    }

    method IssueCode(grantId: nat, clientId: string, redirectUri: string, codeChallenge: string, resource: Option<string>, expiresAt: int)
      returns (code: nat)
      modifies this
      ensures code == old(next)
      ensures State() == CodeIssued(old(State()), Code(grantId, clientId, redirectUri, codeChallenge, resource, expiresAt, None))
    {
      code, next := next, next + 1;
      codes := codes[code := Code(grantId, clientId, redirectUri, codeChallenge, resource, expiresAt, None)];
    }

    /** Marks the code used and returns it as it was. */
    method ConsumeCode(code: nat, now: int) returns (row: Option<Code>)
      modifies this
      ensures State() == CodeConsumed(old(State()), code, now)
      ensures row == if code in old(codes) then Some(old(codes)[code]) else None
    {
      if code !in codes {
        return None;
      }
      row := Some(codes[code]);
      if row.value.usedAt.None? {
        codes := codes[code := row.value.(usedAt := Some(now))];
      }
    }

    method IssueToken(grantId: nat, kind: TokenKind, scopes: seq<Scope>, resource: Option<string>, expiresAt: Option<int>) returns (token: nat)
      modifies this
      ensures token == old(next) && State() == TokenIssued(old(State()), Token(grantId, kind, resource, scopes, expiresAt, None))
    {
      token, next := next, next + 1;
      tokens := tokens[token := Token(grantId, kind, resource, scopes, expiresAt, None)];
    }

    method RevokeToken(token: nat, now: int)
      modifies this
      ensures State() == TokenRevoked(old(State()), token, now)
    {
      if token in tokens && tokens[token].revokedAt.None? {
        tokens := tokens[token := tokens[token].(revokedAt := Some(now))];
      }
    }

    /** Ends the grant and its tokens and deletes its codes, in one transaction. */
    method RevokeGrant(id: nat, now: int) returns (changed: bool)
      modifies this
      ensures State() == GrantRevoked(old(State()), id, now)
      ensures changed <==> id in old(grants) && old(grants)[id].revokedAt.None?
    {
      changed := id in grants && grants[id].revokedAt.None?;
      if changed {
        grants := grants[id := grants[id].(revokedAt := Some(now))];
      }
      tokens := map token | token in tokens ::
        if tokens[token].grantId == id && tokens[token].revokedAt.None? then tokens[token].(revokedAt := Some(now)) else tokens[token];
      codes := map code | code in codes && codes[code].grantId != id :: codes[code];
    }
  }
}
