/** The authorization server: its three in-memory tables, the login limiter and the store, all
    updated in place. */
module AuthProvider {
  import opened Text
  import opened PyDict
  import Spec = LoginSpec
  import opened LoginSpec
  import opened LimiterSpec
  import opened StoreSpec
  import Tokens = TokenSpec
  import opened TokenSpec
  import RateLimiter
  import OAuthStore

  class Provider {
    const cfg: Config
    const limiter: RateLimiter.LoginRateLimiter
    const store: OAuthStore.Store
    var pending: Dict<string, Pending>
    var completed: map<string, Completed>
    var codes: map<string, Code>

    ghost predicate Valid()
      reads this, limiter, store
    {
      Ok(pending) && limiter.Valid() && store.Valid() && store.Synced()
    }

    ghost function View(): Auth
      reads this, limiter, store
    {
      Auth(pending, completed, codes, limiter.View(), store.View())
    }

    constructor (cfg: Config, limits: Limits, backoff: Backoff, store: OAuthStore.Store)
      requires limits.maxTracked > 0 && store.Valid() && store.Synced()
      ensures Valid() && this.cfg == cfg && this.store == store && fresh(limiter)
      ensures limiter.limits == limits && limiter.backoff == backoff
      ensures View() == Auth(Empty(), map[], map[], START, store.View())
    {
      this.cfg, this.store := cfg, store;
      pending, completed, codes := Empty(), map[], map[];
      limiter := new RateLimiter.LoginRateLimiter(limits, backoff);
    }

    method PrunePending(now: real)
      requires Valid()
      modifies this
      ensures Valid() && View() == Spec.PrunePending(old(View()), cfg, now)
    {
      var stale := set t | t in pending.vals && pending.vals[t].createdAt + cfg.pendingTtl as real < now;
      pending := PopAll(pending, stale);
      assert old(pending).vals.Keys - stale == LoginSpec.Fresh(old(pending), cfg.pendingTtl, now);
      completed := completed - set t | t in completed && completed[t].expiresAt < now;
      codes := codes - set c | c in codes && codes[c].expiresAt < now;
    }

    // ----------------------------------------------------------------- registration

    method PendingClientIds(now: real) returns (ids: set<string>)
      requires Valid()
      modifies this
      ensures Valid() && View() == Spec.PrunePending(old(View()), cfg, now) && ids == PendingClients(View())
    {
      PrunePending(now);
      ids := set t | t in pending.vals :: pending.vals[t].clientId;
    }

    method RegisterClient(id: string, redirects: seq<string>, rec: ClientRec, now: real) returns (r: Registration)
      requires Valid()
      modifies this, store
      ensures Valid()
      ensures (View(), r) == Spec.RegisterClient(old(View()), cfg, store.maxClients, id, redirects, rec, now)
    {
      var info := rec.(authMethod := "none", secret := None);
      if redirects == [] {
        return NoRedirect;
      }
      for i := 0 to |redirects|
        invariant forall j | 0 <= j < i :: redirects[j] in cfg.redirects
        invariant Valid() && View() == old(View())
      {
        if redirects[i] !in cfg.redirects {
          return RedirectRefused;
        }
      }
      var protected := PendingClientIds(now);
      var stored := store.PutClient(id, info, protected, now);
      r := if stored then Registered else LimitReached;
    }

    // ---------------------------------------------------------------- authorization

    method Authorize(client: string, p: Params, now: real, txn: string) returns (r: Parking)
      requires Valid()
      modifies this
      ensures Valid() && (View(), r) == Spec.Authorize(old(View()), cfg, client, p, now, txn)
    {
      if p.redirectUri !in cfg.redirects {
        return Refused(AccessDenied);
      }
      if !ResourceOk(cfg, p.resource) {
        return Refused(InvalidTarget);
      }
      if p.challenge == "" {
        return Refused(InvalidRequest);
      }
      PrunePending(now);
      EvictOldest();
      PutOk(pending, txn, Park(client, p, now));
      pending := Put(pending, txn, Park(client, p, now));
      return Parked(txn);
    }

    method EvictOldest()
      requires Valid()
      modifies this`pending
      ensures Valid() && pending == MakeRoom(old(pending))
    {
      while |pending.keys| >= MAX_PENDING
        invariant Ok(pending) && MakeRoom(pending) == MakeRoom(old(pending))
        decreases |pending.keys|
      {
        var oldest := pending.keys[FirstMin(pending.keys, CreationTimes(pending))];
        PopShrinks(pending, oldest);
        pending := Pop(pending, oldest);
      }
    }

    method HasPending(txn: string, now: real) returns (r: bool)
      requires Valid()
      modifies this
      ensures Valid() && View() == Spec.PrunePending(old(View()), cfg, now) && (r <==> txn in View().pending.vals)
    {
      PrunePending(now);
      r := txn in pending.vals;
    }

    /** The operator submits the login form. */
    method CompleteLogin(txn: string, password: string, ip: string, now: real, code: string) returns (r: Login)
      requires Valid()
      modifies this, limiter
      ensures Valid()
      ensures (View(), r) == Spec.CompleteLogin(old(View()), cfg, limiter.limits, txn, password, ip, now, code)
    {
      var locked := limiter.LockedFor(ip, now);
      if locked > 0.0 {
        return Locked(locked);
      }
      PrunePending(now);
      if txn !in pending.vals {
        if txn in completed {
          if password == cfg.operatorPassword {
            return SentTo(completed[txn].redirect);
          }
          limiter.RecordFailure(ip, now);
        }
        return LinkExpired;
      }
      if password != cfg.operatorPassword {
        limiter.RecordFailure(ip, now);
        return Rejected;
      }
      limiter.RecordSuccess(ip);
      var redirect := MintCode(txn, now, code);
      return SentTo(redirect);
    }

    method MintCode(txn: string, now: real, code: string) returns (redirect: Redirect)
      requires Valid() && txn in pending.vals
      modifies this
      ensures Valid()
      ensures var p := old(pending).vals[txn];
        && redirect == Redirect(p.redirectUri, code, p.state)
        && pending == Pop(old(pending), txn)
        && codes == old(codes)[code := CodeOf(p, cfg, now)]
        && completed == old(completed)[txn := Completed(redirect, now + COMPLETED_LOGIN_TTL)]
    {
      var p := pending.vals[txn];
      PopOk(pending, txn);
      pending := Pop(pending, txn);
      codes := codes[code := CodeOf(p, cfg, now)];
      redirect := Redirect(p.redirectUri, code, p.state);
      completed := completed[txn := Completed(redirect, now + COMPLETED_LOGIN_TTL)];
    }

    // --------------------------------------------------------------- token issuance

    method LoadAuthorizationCode(client: string, code: string) returns (r: Option<Code>)
      ensures r == LoadCode(View(), client, code)
    {
      r := if code in codes && codes[code].clientId == client then Some(codes[code]) else None;
    }

    method ExchangeAuthorizationCode(client: string, code: string, now: real, at: string, rt: string) returns (r: Grant)
      requires Valid()
      modifies this`codes, store
      ensures Valid() && (View(), r) == ExchangeCode(old(View()), cfg, client, code, now, at, rt)
    {
      if code !in codes {
        assert codes - {code} == codes;
        return InvalidGrant(CodeUsed);
      }
      var rec := codes[code];
      codes := codes - {code};
      if rec.expiresAt < now {
        return InvalidGrant(CodeExpired);
      }
      IssueTokens(client, rec.scopes, now, None, None, at, rt);
      return Issued(at, rt, rec.scopes);
    }

    /** The first step of a refresh: look the token up without consuming it. */
    method LoadRefreshToken(client: string, token: string) returns (rec: Option<RefreshRec>)
      ensures var stored := FindRefresh(store.View(), token);
        rec == if stored.Some? && stored.value.clientId == client then stored else None
    {
      rec := store.GetRefreshToken(token);
      if rec.Some? && rec.value.clientId != client {
        rec := None;
      }
    }

    method ExchangeRefreshToken(client: string, token: string, scopes: seq<string>, now: real, at: string, rt: string)
        returns (r: Grant)
      requires Valid()
      modifies store
      ensures Valid() && pending == old(pending) && completed == old(completed) && codes == old(codes)
      ensures (store.View(), r) == Tokens.ExchangeRefresh(old(store.View()), cfg, client, token, scopes, now, at, rt)
    {
      var rec := store.PopRefreshToken(token);
      if rec.None? || rec.value.clientId != client {
        return InvalidGrant(TokenNotValid);
      }
      var found := rec.value;
      if Expired(found.expiresAt, now) {
        return InvalidGrant(TokenExpired);
      }
      if found.accessHash.Some? {
        store.DeleteAccessToken(found.accessHash.value);
      }
      var granted := if scopes != [] then scopes else found.scopes;
      IssueTokens(client, granted, now, found.absoluteExpiresAt, found.absoluteExpiresAt, at, rt);
      return Issued(at, rt, granted);
    }

    method IssueTokens(client: string, scopes: seq<string>, now: real,
                       refreshExpiresAt: Option<real>, absoluteExpiresAt: Option<real>, at: string, rt: string)
      requires Valid()
      modifies store
      ensures Valid()
      ensures store.View()
           == Tokens.IssueTokens(old(store.View()), cfg, client, scopes, now, refreshExpiresAt, absoluteExpiresAt,
                                 at, rt)
    {
      var accessExpires := Trunc(now + cfg.accessTtl as real);
      var absolute := if absoluteExpiresAt.None? then now + cfg.refreshTtl as real else absoluteExpiresAt.value;
      var refreshExpires := Trunc(OrElse(refreshExpiresAt, absolute));
      var digest :=
          store.PutAccessToken(at, AccessRec(client, scopes, Some(accessExpires as real), Some(cfg.audience)));
      var _ := store.PutRefreshToken(
        rt, RefreshRec(client, scopes, Some(refreshExpires as real), Some(absolute), Some(cfg.audience), Some(digest)));
    }

    // -------------------------------------------------------------- resource server

    method LoadAccessToken(token: string, now: real) returns (r: Option<Bearer>)
      requires Valid()
      modifies store
      ensures Valid() && (store.View(), r) == Tokens.LoadAccess(old(store.View()), cfg, token, now)
    {
      var rec := store.GetAccessToken(token);
      if rec.None? {
        return None;
      }
      var found := rec.value;
      if Expired(found.expiresAt, now) {
        store.DeleteAccessToken(DigestOf(token));
        return None;
      }
      if found.resource !in {None, Some(cfg.audience)} {
        return None;
      }
      var expires := if found.expiresAt.Some? then Some(Trunc(found.expiresAt.value)) else None;
      return Some(Bearer(found.clientId, found.scopes, expires, found.resource));
    }

    method RevokeToken(token: string, isRefresh: bool)
      requires Valid()
      modifies store
      ensures Valid()
      ensures store.View()
           == if isRefresh then RevokeRefresh(old(store.View()), token) else RevokeAccess(old(store.View()), token)
    {
      if isRefresh {
        var rec := store.PopRefreshToken(token);
        if rec.Some? && rec.value.accessHash.Some? {
          store.DeleteAccessToken(rec.value.accessHash.value);
        }
        return;
      }
      store.DeleteAccessToken(DigestOf(token));
      var _ := store.DeleteRefreshTokensForAccess(DigestOf(token));
    }
  }
}
