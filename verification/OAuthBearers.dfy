/** What a bearer may do, and where: at the server it was consented to, and no more than the owner chose. */
module OAuthBearers {
  import opened PriorityQueue
  import opened AgentAccess
  import opened OAuth
  import opened OAuthLaws
  import opened OAuthOrigins
  import opened OAuthRevocation

  /** Tiers are cumulative: everyone may read, only the act tier may act. */
  ghost predicate Allows(tier: Tier, scope: Scope) {
    match scope
    case MailRead => true
    case MailPropose => tier == ProposeTier || tier == ActTier
    case MailDraft => tier == ProposeTier || tier == ActTier
    case MailAct => tier == ActTier
  }

  lemma TierAllows(tier: Tier, scope: Scope)
    ensures scope in TierScopes(tier) <==> Allows(tier, scope)
  {
  }

  /** In request `i` of the run the owner chose this tier for the grant. */
  ghost predicate OwnerChose(requests: seq<Request>, i: nat, grant: nat, tier: Tier) {
    && i < |requests|
    && var reply := ReplyTo(requests[..i], requests[i]);
    || (requests[i].Consent? && requests[i].allow && requests[i].tier == Some(tier) && reply.Granted? && reply.grant == grant)
    || (requests[i].CreatePersonal? && requests[i].level == tier && reply.PersonalIssued?
        && reply.token in After(requests[..i + 1]).db.tokens && After(requests[..i + 1]).db.tokens[reply.token].grantId == grant)
  }

  lemma NewGrant(system: System, request: Request, grant: nat) returns (tier: Tier)
    requires grant in Handled(system, request).0.db.grants && grant !in system.db.grants
    ensures var (after, reply) := Handled(system, request);
      && after.db.grants[grant].scopes == TierScopes(tier)
      && ((request.Consent? && request.allow && request.tier == Some(tier) && reply.Granted? && reply.grant == grant)
          || (request.CreatePersonal? && request.level == tier && reply.PersonalIssued?
              && reply.token in after.db.tokens && after.db.tokens[reply.token].grantId == grant))
  {
    hide Unexpired, FindPending, WithoutPending, Within, TierScopes;
    assert request.Consent? || request.CreatePersonal?;
    tier := if request.Consent? && request.tier.Some? then request.tier.value else if request.CreatePersonal? then request.level else ReadTier;
  }

  /** Every grant stems from a choice of the owner and has the scopes of the tier that was chosen. */
  lemma {:induction false} GrantOrigin(requests: seq<Request>, grant: nat) returns (i: nat, tier: Tier)
    requires grant in After(requests).db.grants
    ensures OwnerChose(requests, i, grant, tier)
    ensures forall scope :: scope in After(requests).db.grants[grant].scopes <==> Allows(tier, scope)
  {
    hide Handled, TierScopes, Allows;
    var n := |requests| - 1;
    var front, last := requests[..n], requests[n];
    assert front + [last] == requests;
    RunIsNumbered(front);
    RunEvolves(front, [last]);
    if grant in After(front).db.grants {
      i, tier := GrantOrigin(front, grant);
      assert front[..i] == requests[..i] && front[..i + 1] == requests[..i + 1];
    } else {
      tier := NewGrant(After(front), last, grant);
      i := n;
      assert requests[..n + 1] == requests;
      forall scope
        ensures scope in After(requests).db.grants[grant].scopes <==> Allows(tier, scope)
      {
        TierAllows(tier, scope);
      }
    }
  }

  /** Whatever a bearer may do, the owner chose a tier that allows it: in particular only agents of the act tier act. */
  lemma BearerWithinTier(requests: seq<Request>, token: nat, server: string, now: int) returns (i: nat, tier: Tier)
    requires Authenticated(After(requests).db, token, server, now).Some?
    ensures OwnerChose(requests, i, Authenticated(After(requests).db, token, server, now).value, tier)
    ensures token in After(requests).db.tokens && forall scope :: scope in After(requests).db.tokens[token].scopes ==> Allows(tier, scope)
  {
    hide After, OwnerChose, Allows;
    AuthenticatedWithinGrant(requests, token, server, now);
    i, tier := GrantOrigin(requests, Authenticated(After(requests).db, token, server, now).value);
  }

  /** The tokens for a code are for the server at which the consent page was asked for, whatever server exchanges it, and
      may do exactly what the tier allows that the owner chose. */
  lemma TokensForConsent(requests: seq<Request>, exchange: Request) returns (j: nat, i: nat)
    requires exchange.ExchangeCode? && ReplyTo(requests, exchange).Tokens?
    ensures j < i < |requests| && requests[j].Authorize? && requests[i].Consent? && requests[i].allow && requests[i].tier.Some?
    ensures ReplyTo(requests[..j], requests[j]) == Asked(requests[i].request)
    ensures ReplyTo(requests[..i], requests[i]).Granted? && ReplyTo(requests[..i], requests[i]).code == exchange.code
    ensures Home(After(requests).db, exchange) == requests[j].server
    ensures forall scope :: scope in ReplyTo(requests, exchange).scopes <==> Allows(requests[i].tier.value, scope)
  {
    hide After, Handled, Exchanged, Unexpired, FindPending, TierScopes, Allows;
    HandlesExchange(After(requests), exchange);
    ExchangeChecks(After(requests).db, exchange);
    var page;
    i, page := CodeOrigin(requests, exchange.code);
    assert (requests[i].request, page) in Unexpired(After(requests[..i]).pending, requests[i].now);
    j := PageOrigin(requests[..i], (requests[i].request, page));
    assert requests[..i][..j] == requests[..j];
    forall scope
      ensures scope in ReplyTo(requests, exchange).scopes <==> Allows(requests[i].tier.value, scope)
    {
      TierAllows(requests[i].tier.value, scope);
    }
  }

  /** A refresh keeps the server. */
  lemma RefreshKeepsHome(requests: seq<Request>, refresh: Request, before: seq<Request>, first: Request)
    requires ReplyTo(before, first).Tokens? && before + [first] <= requests
    requires refresh.RefreshTokens? && refresh.token == ReplyTo(before, first).refresh
    ensures Home(After(requests).db, refresh) == Home(After(before).db, first)
  {
    hide After, Handled;
    PairOfReply(before, first);
    RunEvolves(before + [first], requests[|before| + 1..]);
    assert requests == before + [first] + requests[|before| + 1..];
  }
}
