/** How long a refresh token lasts: the first attempt with it succeeds exactly when it should. */
module OAuthRotation {
  import opened PriorityQueue
  import opened AgentAccess
  import opened OAuth
  import opened OAuthLaws
  import opened OAuthRevocation

  ghost predicate TriesRefresh(request: Request, token: nat) {
    request.RefreshTokens? && request.token == token
  }

  /** A refresh token of a grant that stays active is only changed by an attempt to refresh with it. */
  lemma RefreshKept(system: System, request: Request, token: nat)
    requires Numbered(system.db) && token in system.db.tokens && system.db.tokens[token].kind == Refresh && !TriesRefresh(request, token)
    requires IsActive(Handled(system, request).0.db, system.db.tokens[token].grantId)
    ensures token in Handled(system, request).0.db.tokens && Handled(system, request).0.db.tokens[token] == system.db.tokens[token]
  {
    hide Unexpired, FindPending, WithoutPending, Within;
  }

  lemma {:induction false} RefreshKeptInRun(requests: seq<Request>, more: seq<Request>, token: nat)
    requires token in After(requests).db.tokens && After(requests).db.tokens[token].kind == Refresh
    requires forall r :: r in more ==> !TriesRefresh(r, token)
    requires IsActive(After(requests + more).db, After(requests).db.tokens[token].grantId)
    ensures token in After(requests + more).db.tokens && After(requests + more).db.tokens[token] == After(requests).db.tokens[token]
  {
    hide Handled, TriesRefresh;
    if more == [] {
      assert requests + more == requests;
    } else {
      var front, last := more[..|more| - 1], more[|more| - 1];
      assert (requests + front) + [last] == requests + more;
      RunIsNumbered(requests);
      RunEvolves(requests, front);
      RunEvolves(requests + front, [last]);
      assert forall r :: r in front ==> r in more;
      RefreshKeptInRun(requests, front, token);
      RunIsNumbered(requests + front);
      AppendStep(requests + front, last);
      RefreshKept(After(requests + front), last, token);
    }
  }

  lemma FreshRefreshToken(before: seq<Request>, request: Request)
    requires ReplyTo(before, request).Tokens?
    ensures var reply, after := ReplyTo(before, request), After(before + [request]).db;
      && reply.refresh in after.tokens
      && var row := after.tokens[reply.refresh];
         row.kind == Refresh && row.scopes == reply.scopes && row.revokedAt.None? && row.expiresAt == Some(request.now + 30 * 24 * 60 * 60 * 1000)
  {
    TokensOfReply(before, request);
  }

  /** The scopes asked for are some of those granted, and not none. */
  ghost predicate Narrows(asked: Option<seq<Scope>>, granted: seq<Scope>) {
    asked.None? || (asked.value != [] && forall scope :: scope in asked.value ==> scope in granted)
  }

  /** The first attempt with a refresh token succeeds if and only if the client of the grant makes it within thirty days of
      the answer that brought the token, asks for no new scope, and the grant has not ended. */
  lemma RefreshWorksIff(before: seq<Request>, request: Request, more: seq<Request>, refresh: Request)
    requires ReplyTo(before, request).Tokens? && TriesRefresh(refresh, ReplyTo(before, request).refresh)
    requires forall r :: r in more ==> !TriesRefresh(r, ReplyTo(before, request).refresh)
    ensures var first, late := ReplyTo(before, request), After(before + [request] + more).db;
      && first.refresh in After(before + [request]).db.tokens
      && var grant := After(before + [request]).db.tokens[first.refresh].grantId;
         grant in late.grants
         && (ReplyTo(before + [request] + more, refresh).Tokens? <==>
           && late.grants[grant].revokedAt.None? && refresh.client.Some? && late.grants[grant].clientId == refresh.client
           && refresh.now < request.now + 30 * 24 * 60 * 60 * 1000 && Narrows(refresh.scope, first.scopes))
  {
    FreshRefreshToken(before, request);
    RunIsNumbered(before + [request]);
    RunEvolves(before + [request], more);
    hide After, Handled, Sound;
    var token, issued, late := ReplyTo(before, request).refresh, After(before + [request]).db, After(before + [request] + more).db;
    var grant := issued.tokens[token].grantId;
    HandlesRefresh(After(before + [request] + more), refresh);
    if late.grants[grant].revokedAt.None? {
      RefreshKeptInRun(before + [request], more, token);
      RefreshedIff(late, refresh);
    } else {
      EndedNeverRefreshes(late, refresh);
    }
  }

  lemma RefreshedIff(db: Db, refresh: Request)
    requires refresh.RefreshTokens? && refresh.token in db.tokens && db.tokens[refresh.token].kind == Refresh && db.tokens[refresh.token].revokedAt.None?
    requires IsActive(db, db.tokens[refresh.token].grantId) && db.tokens[refresh.token].expiresAt.Some?
    ensures Refreshed(db, refresh.now, refresh.client, refresh.token, refresh.scope, refresh.server).1.Tokens? <==>
      && refresh.client.Some? && db.grants[db.tokens[refresh.token].grantId].clientId == refresh.client
      && refresh.now < db.tokens[refresh.token].expiresAt.value && Narrows(refresh.scope, db.tokens[refresh.token].scopes)
  {
  }

  lemma EndedNeverRefreshes(db: Db, refresh: Request)
    requires refresh.RefreshTokens? && refresh.token in db.tokens && !IsActive(db, db.tokens[refresh.token].grantId)
    ensures !Refreshed(db, refresh.now, refresh.client, refresh.token, refresh.scope, refresh.server).1.Tokens?
  {
    hide Within;
  }
}
