/** What revoking means: a request to revoke, by an agent or by the owner, and everything that may come after it. */
module OAuthRevocation {
  import opened PriorityQueue
  import opened AgentAccess
  import opened OAuth
  import opened OAuthLaws

  /** The grant has ended: it is revoked, all its tokens are, it has no code left, and no token authenticates for it. */
  ghost predicate Over(db: Db, grant: nat) {
    && grant in db.grants && db.grants[grant].revokedAt.Some?
    && (forall t :: t in db.tokens && db.tokens[t].grantId == grant ==> db.tokens[t].revokedAt.Some?)
    && (forall c :: c in db.codes ==> db.codes[c].grantId != grant)
    && (forall t, server, now :: Authenticated(db, t, server, now) != Some(grant))
  }

  lemma OverForever(before: seq<Request>, request: Request, more: seq<Request>, grant: nat)
    requires grant in After(before + [request]).db.grants && After(before + [request]).db.grants[grant].revokedAt.Some?
    ensures Over(After(before + [request] + more).db, grant)
  {
    hide After;
    RevokedForever(before + [request], more, grant);
  }

  /** Revoking a refresh or personal token ends its grant, then and in every continuation. */
  lemma RevokeEndsGrant(before: seq<Request>, revoke: Request, more: seq<Request>)
    requires revoke.Revoke? && revoke.token in After(before).db.tokens && After(before).db.tokens[revoke.token].kind != Access
    ensures Over(After(before + [revoke] + more).db, After(before).db.tokens[revoke.token].grantId)
  {
    RunIsNumbered(before);
    AppendStep(before, revoke);
    hide After;
    OverForever(before, revoke, more, After(before).db.tokens[revoke.token].grantId);
  }

  /** Revoking an access token ends that token for good, and touches nothing else. */
  lemma RevokeEndsAccessToken(before: seq<Request>, revoke: Request, more: seq<Request>, server: string, now: int)
    requires revoke.Revoke? && revoke.token in After(before).db.tokens && After(before).db.tokens[revoke.token].kind == Access
    ensures Authenticated(After(before + [revoke] + more).db, revoke.token, server, now).None?
    ensures var start, after := After(before).db, After(before + [revoke]).db;
      && after.grants == start.grants && after.codes == start.codes && after.tokens.Keys == start.tokens.Keys
      && forall t :: t in start.tokens && t != revoke.token ==> after.tokens[t] == start.tokens[t]
  {
    AppendStep(before, revoke);
    hide After;
    assert After(before + [revoke]).db.tokens[revoke.token].revokedAt.Some?;
    RunEvolves(before + [revoke], more);
  }

  /** What is not a token of the run cannot be used to change anything. */
  lemma RevokeUnknown(before: seq<Request>, revoke: Request)
    requires revoke.Revoke? && revoke.token !in After(before).db.tokens
    ensures After(before + [revoke]) == After(before)
  {
    AppendStep(before, revoke);
  }

  /** The owner is told that a grant was ended exactly when it was active, and then it is over in every continuation. */
  lemma OwnerEndsGrant(before: seq<Request>, end: Request, more: seq<Request>)
    requires end.EndGrant?
    ensures ReplyTo(before, end) == Done <==> end.grant in After(before).db.grants && After(before).db.grants[end.grant].revokedAt.None?
    ensures ReplyTo(before, end) == Done ==> Over(After(before + [end] + more).db, end.grant)
  {
    AppendStep(before, end);
    hide After;
    if ReplyTo(before, end) == Done { OverForever(before, end, more, end.grant); }
  }

  /** Whatever ends a grant leaves the other grants alone, with their codes and tokens. */
  lemma OthersStay(before: seq<Request>, request: Request, grant: nat)
    requires request.Revoke? || request.EndGrant?
    requires request.Revoke? ==> request.token in After(before).db.tokens ==> After(before).db.tokens[request.token].grantId != grant
    requires request.EndGrant? ==> request.grant != grant
    ensures var start, after := After(before).db, After(before + [request]).db;
      && (grant in after.grants <==> grant in start.grants) && (grant in start.grants ==> after.grants[grant] == start.grants[grant])
      && (forall t :: t in start.tokens && start.tokens[t].grantId == grant ==> t in after.tokens && after.tokens[t] == start.tokens[t])
      && (forall c :: c in start.codes && start.codes[c].grantId == grant ==> c in after.codes && after.codes[c] == start.codes[c])
  {
    AppendStep(before, request);
    hide After;
  }

  // How long an access token lives.

  ghost predicate Revokes(request: Request, token: nat) {
    request.Revoke? && request.token == token
  }

  /** A token of a grant that stays active is only changed by a refresh or a request to revoke it. */
  lemma TokenKept(system: System, request: Request, token: nat)
    requires Numbered(system.db) && token in system.db.tokens && system.db.tokens[token].kind != Refresh && !Revokes(request, token)
    requires IsActive(Handled(system, request).0.db, system.db.tokens[token].grantId)
    ensures token in Handled(system, request).0.db.tokens && Handled(system, request).0.db.tokens[token] == system.db.tokens[token]
  {
    hide Unexpired, FindPending, WithoutPending, Within;
  }

  lemma {:induction false} TokenKeptInRun(requests: seq<Request>, more: seq<Request>, token: nat)
    requires token in After(requests).db.tokens && After(requests).db.tokens[token].kind != Refresh
    requires forall r :: r in more ==> !Revokes(r, token)
    requires IsActive(After(requests + more).db, After(requests).db.tokens[token].grantId)
    ensures token in After(requests + more).db.tokens && After(requests + more).db.tokens[token] == After(requests).db.tokens[token]
  {
    hide Handled, Revokes;
    if more == [] {
      assert requests + more == requests;
    } else {
      var front, last := more[..|more| - 1], more[|more| - 1];
      assert (requests + front) + [last] == requests + more;
      RunIsNumbered(requests);
      RunEvolves(requests, front);
      RunEvolves(requests + front, [last]);
      assert forall r :: r in front ==> r in more;
      TokenKeptInRun(requests, front, token);
      RunIsNumbered(requests + front);
      AppendStep(requests + front, last);
      TokenKept(After(requests + front), last, token);
    }
  }

  /** Where a revocation stands in a continuation. */
  lemma {:induction false} RevokedInRun(requests: seq<Request>, more: seq<Request>, token: nat, r: Request)
    requires token in After(requests).db.tokens && r in more && Revokes(r, token)
    ensures token in After(requests + more).db.tokens && After(requests + more).db.tokens[token].revokedAt.Some?
  {
    hide Handled, Evolves;
    var k :| 0 <= k < |more| && more[k] == r;
    var upto, rest := requests + more[..k], more[k + 1..];
    assert requests + more == upto + [r] + rest;
    RunEvolves(requests, more[..k]);
    KeptToken(After(requests).db, After(upto).db, token);
    AppendStep(upto, r);
    RunIsNumbered(upto);
    RevokeMarks(After(upto), r, token);
    RunEvolves(upto + [r], rest);
    KeptToken(After(upto + [r]).db, After(requests + more).db, token);
  }

  lemma KeptToken(a: Db, b: Db, token: nat)
    requires Evolves(a, b) && token in a.tokens
    ensures token in b.tokens && (a.tokens[token].revokedAt.Some? ==> b.tokens[token].revokedAt.Some?)
  {
  }

  lemma RevokeMarks(system: System, request: Request, token: nat)
    requires Revokes(request, token) && token in system.db.tokens
    ensures token in Handled(system, request).0.db.tokens && Handled(system, request).0.db.tokens[token].revokedAt.Some?
  {
  }

  /** The server the tokens of an answer are for: the one the code, or the refresh token, was for. */
  function Home(db: Db, request: Request): string {
    var resource :=
      if request.ExchangeCode? && request.code in db.codes then db.codes[request.code].resource
      else if request.RefreshTokens? && request.token in db.tokens then db.tokens[request.token].resource
      else None;
    if resource.Some? then resource.value
    else if request.ExchangeCode? || request.RefreshTokens? then request.server else ""
  }

  lemma PairOfReply(before: seq<Request>, request: Request)
    requires ReplyTo(before, request).Tokens?
    ensures var reply, after := ReplyTo(before, request), After(before + [request]).db;
      && (request.ExchangeCode? || request.RefreshTokens?)
      && reply.access in after.tokens && reply.refresh in after.tokens
      && after.tokens[reply.access].kind == Access && after.tokens[reply.refresh].kind == Refresh
      && after.tokens[reply.access].resource == after.tokens[reply.refresh].resource == Some(Home(After(before).db, request))
      && after.tokens[reply.access].expiresAt == Some(request.now + 60 * 60 * 1000)
      && after.tokens[reply.access].revokedAt.None? && after.tokens[reply.access].grantId == after.tokens[reply.refresh].grantId
  {
    AppendStep(before, request);
    RunIsNumbered(before);
    hide After;
    assert request.ExchangeCode? || request.RefreshTokens?;
  }

  /** In every continuation the access token of an answer authenticates, for the grant it was issued for, exactly at the
      server it is for, within an hour, and unless somebody has revoked it or the grant has ended; and the refresh token
      never authenticates. */
  lemma AccessTokenWorksIff(before: seq<Request>, request: Request, more: seq<Request>, server: string, now: int)
    requires ReplyTo(before, request).Tokens?
    ensures var reply, issued, late := ReplyTo(before, request), After(before + [request]).db, After(before + [request] + more).db;
      && reply.access in issued.tokens
      && var grant := issued.tokens[reply.access].grantId;
         grant in late.grants
         && (Authenticated(late, reply.access, server, now) == Some(grant) <==>
           && server == Home(After(before).db, request) && now < request.now + 60 * 60 * 1000
           && late.grants[grant].revokedAt.None? && (forall r :: r in more ==> !Revokes(r, reply.access)))
    ensures Authenticated(After(before + [request] + more).db, ReplyTo(before, request).refresh, server, now).None?
  {
    hide After, Handled, Sound, Revokes;
    var reply, issued, late := ReplyTo(before, request), After(before + [request]).db, After(before + [request] + more).db;
    PairOfReply(before, request);
    RunIsNumbered(before + [request]);
    RunEvolves(before + [request], more);
    var grant := issued.tokens[reply.access].grantId;
    if late.grants[grant].revokedAt.None? && forall r :: r in more ==> !Revokes(r, reply.access) {
      TokenKeptInRun(before + [request], more, reply.access);
    }
    if r :| r in more && Revokes(r, reply.access) {
      RevokedInRun(before + [request], more, reply.access, r);
    }
  }

  /** A personal token authenticates at any server and at any time, as long as its grant has not ended. */
  lemma PersonalTokenWorksIff(before: seq<Request>, create: Request, more: seq<Request>, server: string, now: int)
    requires create.CreatePersonal?
    ensures ReplyTo(before, create).PersonalIssued?
    ensures var token, issued, late := ReplyTo(before, create).token, After(before + [create]).db, After(before + [create] + more).db;
      && token in issued.tokens && issued.tokens[token].grantId in late.grants
      && (Authenticated(late, token, server, now) == Some(issued.tokens[token].grantId) <==> late.grants[issued.tokens[token].grantId].revokedAt.None?)
  {
    AppendStep(before, create);
    RunIsNumbered(before);
    var token := ReplyTo(before, create).token;
    assert After(before + [create]).db.tokens[token] == Token(After(before).db.next, Personal, None, TierScopes(create.level), None, None);
    hide After, Handled, Revokes;
    var issued, late := After(before + [create]).db, After(before + [create] + more).db;
    var grant := issued.tokens[token].grantId;
    RunIsNumbered(before + [create]);
    RunEvolves(before + [create], more);
    if late.grants[grant].revokedAt.None? {
      if r :| r in more && Revokes(r, token) {
        RevokedInRun(before + [create], more, token, r);
        PersonalRevoked(before + [create], more, token, r);
      } else {
        TokenKeptInRun(before + [create], more, token);
      }
    }
  }

  /** Revoking a personal token in a continuation ends its grant. */
  lemma PersonalRevoked(requests: seq<Request>, more: seq<Request>, token: nat, r: Request)
    requires token in After(requests).db.tokens && After(requests).db.tokens[token].kind == Personal && r in more && Revokes(r, token)
    ensures var grant := After(requests).db.tokens[token].grantId;
      grant in After(requests + more).db.grants && After(requests + more).db.grants[grant].revokedAt.Some?
  {
    hide After, Handled;
    var k :| 0 <= k < |more| && more[k] == r;
    var upto, rest := requests + more[..k], more[k + 1..];
    assert requests + more == upto + [r] + rest;
    RunEvolves(requests, more[..k]);
    RevokeEndsGrant(upto, r, rest);
  }
}
