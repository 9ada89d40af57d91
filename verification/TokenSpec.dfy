/** What the token endpoint, bearer verification and revocation do to the store. */
module TokenSpec {
  import opened Text
  import opened StoreSpec

  /** Lifetimes are whole seconds; URLs are already in canonical form. */
  datatype Config = Config(
    operatorPassword: string,
    codeTtl: nat, accessTtl: nat, refreshTtl: nat, pendingTtl: nat,
    audience: string, issuer: string, redirects: set<string>)

  /** Every refusal of the token endpoint is an `invalid_grant`; the reason is its description. */
  datatype Reason = CodeUsed | CodeExpired | TokenNotValid | TokenExpired

  datatype Grant = Issued(accessToken: string, refreshToken: string, scopes: seq<string>) | InvalidGrant(reason: Reason)

  /** What a verified bearer token tells the resource server. */
  datatype Bearer = Bearer(clientId: string, scopes: seq<string>, expiresAt: Option<int>, resource: Option<string>)

  /** `x or y` on optional timestamps: a missing or zero `x` gives way to `y`. */
  function OrElse(x: Option<real>, y: real): real {
    if x.Some? && x.value != 0.0 then x.value else y
  }

  /** Two random tokens, `at` and `rt`, become a token pair. */
  function IssueTokens(s: Store, cfg: Config, client: string, scopes: seq<string>, now: real,
                       refreshExpiresAt: Option<real>, absoluteExpiresAt: Option<real>, at: string, rt: string): Store
  {
    var accessExpires := Trunc(now + cfg.accessTtl as real);
    var absolute := if absoluteExpiresAt.None? then now + cfg.refreshTtl as real else absoluteExpiresAt.value;
    var refreshExpires := Trunc(OrElse(refreshExpiresAt, absolute));
    var t := PutAccess(s, at, AccessRec(client, scopes, Some(accessExpires as real), Some(cfg.audience)));
    PutRefresh(t, rt, RefreshRec(client, scopes, Some(refreshExpires as real), Some(absolute), Some(cfg.audience),
                                 Some(DigestOf(at))))
  }

  /** A code was exchanged: the first pair of a login. */
  function FirstIssue(s: Store, cfg: Config, client: string, scopes: seq<string>, now: real, at: string,
                      rt: string): Store {
    IssueTokens(s, cfg, client, scopes, now, None, None, at, rt)
  }

  function RevokeLast(s: Store, rec: RefreshRec): Store {
    if rec.accessHash.Some? then DeleteAccess(s, rec.accessHash.value) else s
  }

  /** Whether or not the exchange succeeds, the refresh token presented is spent. */
  function ExchangeRefresh(s: Store, cfg: Config, client: string, token: string, scopes: seq<string>, now: real,
                           at: string, rt: string): (Store, Grant)
  {
    var popped := PopRefresh(s, token);
    if DigestOf(token) !in s.refresh || s.refresh[DigestOf(token)].clientId != client then
      (popped, InvalidGrant(TokenNotValid))
    else
      var rec := s.refresh[DigestOf(token)];
      if Expired(rec.expiresAt, now) then (popped, InvalidGrant(TokenExpired))
      else
        var granted := if scopes != [] then scopes else rec.scopes;
        (IssueTokens(RevokeLast(popped, rec), cfg, client, granted, now, rec.absoluteExpiresAt, rec.absoluteExpiresAt,
                     at, rt),
         Issued(at, rt, granted))
  }

  /** Verify a bearer token: an expired one is deleted, a foreign audience refused. */
  function LoadAccess(s: Store, cfg: Config, token: string, now: real): (Store, Option<Bearer>) {
    var d := DigestOf(token);
    if d !in s.access then (s, None)
    else
      var rec := s.access[d];
      if Expired(rec.expiresAt, now) then (DeleteAccess(s, d), None)
      else if rec.resource !in {None, Some(cfg.audience)} then (s, None)
      else (s, Some(Bearer(rec.clientId, rec.scopes,
                           if rec.expiresAt.Some? then Some(Trunc(rec.expiresAt.value)) else None, rec.resource)))
  }

  function RevokeRefresh(s: Store, token: string): Store {
    var d := DigestOf(token);
    if d in s.refresh then RevokeLast(PopRefresh(s, token), s.refresh[d]) else PopRefresh(s, token)
  }

  function RevokeAccess(s: Store, token: string): Store {
    DeleteRefreshFor(DeleteAccess(s, DigestOf(token)), DigestOf(token))
  }
}
