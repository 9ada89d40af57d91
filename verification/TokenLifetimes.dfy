/** What others cannot take away: a pair keeps working until exactly its expiry, whatever happens
    to the tokens of other logins, and however often tokens are verified and pruned. */
module TokenLifetimes {
  import opened Text
  import opened StoreSpec
  import opened TokenSpec
  import opened TokenFamilies

  /** A bearer token is accepted iff it is stored, has not expired, and was issued for this server
      or for none in particular; what is reported is what was stored. A token that has expired is
      deleted, and nothing else changes. */
  lemma VerifiesExactly(s: Store, cfg: Config, token: string, now: real)
    ensures var (t, r) := LoadAccess(s, cfg, token, now);
      var d := DigestOf(token);
      var expired := d in s.access && s.access[d].expiresAt.Some? && s.access[d].expiresAt.value < now;
      && (r.Some? <==> d in s.access && !expired
                       && (s.access[d].resource.None? || s.access[d].resource == Some(cfg.audience)))
      && (r.Some? ==>
            var rec, bearer := s.access[d], r.value;
            && bearer.clientId == rec.clientId && bearer.scopes == rec.scopes && bearer.resource == rec.resource
            && (bearer.expiresAt.Some? <==> rec.expiresAt.Some?)
            && (bearer.expiresAt.Some? ==> bearer.expiresAt.value == Trunc(rec.expiresAt.value)))
      && t == if expired then s.(access := s.access - {d}) else s
  {
  }

  /** When the tokens of a pair expire: in whole seconds, the refresh token at the end it was given,
      else with the login; a login that has no end yet gets one. */
  lemma PairExpiries(s: Store, cfg: Config, client: string, scopes: seq<string>, now: real, until: Option<real>,
                     absolute: Option<real>, at: string, rt: string)
    ensures var t := IssueTokens(s, cfg, client, scopes, now, until, absolute, at, rt);
      var end := match absolute case Some(x) => x case None => now + cfg.refreshTtl as real;
      && t.access[DigestOf(at)].expiresAt == Some(Trunc(now + cfg.accessTtl as real) as real)
      && t.refresh[DigestOf(rt)].absoluteExpiresAt == Some(end)
      && (until.Some? && until.value != 0.0 ==> t.refresh[DigestOf(rt)].expiresAt == Some(Trunc(until.value) as real))
      && (until.None? || until.value == 0.0 ==> t.refresh[DigestOf(rt)].expiresAt == Some(Trunc(end) as real))
  {
  }

  /** No step of the run acts on login `f`. */
  ghost predicate Undisturbed(h: History, cfg: Config, steps: seq<Step>, f: nat)
    decreases |steps|
  {
    steps == [] || (Target(h, steps[0].op) != Some(f) && Undisturbed(Next(h, cfg, steps[0]), cfg, steps[1..], f))
  }

  predicate FreshUntil(s: Store, d: Digest, now: real) {
    && (d in s.access ==> !Expired(s.access[d].expiresAt, now))
    && (d in s.refresh ==> !Expired(s.refresh[d].expiresAt, now))
  }

  lemma StepLeaves(h: History, cfg: Config, step: Step, d: Digest)
    requires Families(h) && Proper(h, step) && d in h.family && Target(h, step.op) != Some(h.family[d])
    requires FreshUntil(h.store, d, step.now)
    ensures Same(h.store, Next(h, cfg, step).store, d)
    ensures d in Next(h, cfg, step).family && Next(h, cfg, step).family[d] == h.family[d]
  {
    if step.op.Verify? || step.op.PruneAll? {
      OnlyExpiredGo(h, cfg, step, d);
    } else {
      OthersUntouched(h, cfg, step, d);
    }
  }

  lemma {:induction false} RunLeaves(h: History, cfg: Config, steps: seq<Step>, d: Digest)
    requires Families(h) && Run(h, cfg, steps) && d in h.family && Undisturbed(h, cfg, steps, h.family[d])
    requires forall step | step in steps :: FreshUntil(h.store, d, step.now)
    ensures Same(h.store, End(h, cfg, steps).store, d)
    decreases |steps|
  {
    if steps != [] {
      StepFamilies(h, cfg, steps[0]);
      StepLeaves(h, cfg, steps[0], d);
      RunLeaves(Next(h, cfg, steps[0]), cfg, steps[1..], d);
    }
  }

  lemma SameAnswers(s: Store, t: Store, cfg: Config, token: string, now: real, client: string, scopes: seq<string>,
                    at: string, rt: string)
    requires Same(s, t, DigestOf(token))
    ensures LoadAccess(s, cfg, token, now).1 == LoadAccess(t, cfg, token, now).1
    ensures ExchangeRefresh(s, cfg, client, token, scopes, now, at, rt).1
         == ExchangeRefresh(t, cfg, client, token, scopes, now, at, rt).1
  {
  }

  /** A login, or an exchange of a refresh token that succeeds: for whom, and with which scopes. */
  function Granted(h: History, cfg: Config, step: Step): Option<(string, seq<string>)> {
    match step.op
    case Login(client, scopes, _, _) => Some((client, scopes))
    case Refresh(client, token, scopes, at, rt) =>
      var grant := ExchangeRefresh(h.store, cfg, client, token, scopes, step.now, at, rt).1;
      if grant.Issued? then Some((client, grant.scopes)) else None
    case _ => None
  }

  /** Access token `at` verifies as granted, until exactly `end`. */
  ghost predicate AccessWorks(s: Store, cfg: Config, granted: (string, seq<string>), at: string, end: int) {
    forall now :: LoadAccess(s, cfg, at, now).1
      == if now <= end as real then Some(Bearer(granted.0, granted.1, Some(end), Some(cfg.audience))) else None
  }

  /** Refresh token `rt` yields a pair to its client, until exactly `end`. */
  ghost predicate RefreshWorks(s: Store, cfg: Config, granted: (string, seq<string>), rt: string, end: int) {
    forall who, asked, now, at', rt' :: ExchangeRefresh(s, cfg, who, rt, asked, now, at', rt').1
      == if who != granted.0 then InvalidGrant(TokenNotValid)
         else if now <= end as real then Issued(at', rt', if asked != [] then asked else granted.1)
         else InvalidGrant(TokenExpired)
  }

  lemma IssuedWorks(s: Store, cfg: Config, granted: (string, seq<string>), now: real, until: Option<real>,
                    absolute: Option<real>, at: string, rt: string)
    ensures var t := IssueTokens(s, cfg, granted.0, granted.1, now, until, absolute, at, rt);
      var accessEnd := Trunc(now + cfg.accessTtl as real);
      && AccessWorks(t, cfg, granted, at, accessEnd) && t.access[DigestOf(at)].expiresAt == Some(accessEnd as real)
      && t.access[DigestOf(at)].resource == Some(cfg.audience)
      && t.refresh[DigestOf(rt)].expiresAt.Some? && t.refresh[DigestOf(rt)].resource == Some(cfg.audience)
      && RefreshWorks(t, cfg, granted, rt, t.refresh[DigestOf(rt)].expiresAt.value.Floor)
  {
    var t := IssueTokens(s, cfg, granted.0, granted.1, now, until, absolute, at, rt);
    var accessEnd, refreshEnd := Trunc(now + cfg.accessTtl as real), t.refresh[DigestOf(rt)].expiresAt.value.Floor;
    forall later
      ensures LoadAccess(t, cfg, at, later).1
        == if later <= accessEnd as real then Some(Bearer(granted.0, granted.1, Some(accessEnd), Some(cfg.audience)))
           else None
    {
      IssuedTokensWork(s, cfg, granted.0, granted.1, now, until, absolute, at, rt, later, "", [], "", "");
    }
    forall who, asked, later, at', rt'
      ensures ExchangeRefresh(t, cfg, who, rt, asked, later, at', rt').1
        == if who != granted.0 then InvalidGrant(TokenNotValid)
           else if later <= refreshEnd as real then Issued(at', rt', if asked != [] then asked else granted.1)
           else InvalidGrant(TokenExpired)
    {
      IssuedTokensWork(s, cfg, granted.0, granted.1, now, until, absolute, at, rt, later, who, asked, at', rt');
    }
  }

  /** Where the pair of a step that grants one comes from. */
  lemma GrantedPair(h: History, cfg: Config, step: Step, granted: (string, seq<string>))
    requires Granted(h, cfg, step) == Some(granted)
    ensures var s, op := Next(h, cfg, step).store, step.op;
      var accessEnd := Trunc(step.now + cfg.accessTtl as real);
      && DigestOf(op.at) in s.access && DigestOf(op.rt) in s.refresh && s.refresh[DigestOf(op.rt)].expiresAt.Some?
      && s.access[DigestOf(op.at)].resource == s.refresh[DigestOf(op.rt)].resource == Some(cfg.audience)
      && AccessWorks(s, cfg, granted, op.at, accessEnd)
      && s.access[DigestOf(op.at)].expiresAt == Some(accessEnd as real)
      && RefreshWorks(s, cfg, granted, op.rt, s.refresh[DigestOf(op.rt)].expiresAt.value.Floor)
  {
    var op := step.op;
    if op.Login? {
      IssuedWorks(h.store, cfg, granted, step.now, None, None, op.at, op.rt);
    } else {
      var rec := h.store.refresh[DigestOf(op.token)];
      IssuedWorks(RevokeLast(PopRefresh(h.store, op.token), rec), cfg, granted, step.now,
                  rec.absoluteExpiresAt, rec.absoluteExpiresAt, op.at, op.rt);
    }
  }

  /** Both belong to one login, with whose lifetime the refresh token ends. */
  lemma GrantedLogin(h: History, cfg: Config, step: Step)
    requires Families(h) && InLifetime(h, cfg) && Proper(h, step) && Granted(h, cfg, step).Some?
    ensures var h1, a, r := Next(h, cfg, step), DigestOf(step.op.at), DigestOf(step.op.rt);
      && Families(h1) && a in h1.family && r in h1.family && h1.family[a] == h1.family[r] < |h1.begun|
      && a !in h1.store.refresh && r !in h1.store.access
      && (r in h1.store.refresh ==>
            h1.store.refresh[r].expiresAt == Some(RefreshEnd(cfg, h1.begun[h1.family[r]]) as real))
  {
    StepFamilies(h, cfg, step);
    StepLifetime(h, cfg, step);
  }

  lemma AccessLasts(h: History, cfg: Config, steps: seq<Step>, granted: (string, seq<string>), at: string, end: int)
    requires Families(h) && Run(h, cfg, steps) && DigestOf(at) in h.family
    requires Undisturbed(h, cfg, steps, h.family[DigestOf(at)])
    requires DigestOf(at) in h.store.access && DigestOf(at) !in h.store.refresh
    requires h.store.access[DigestOf(at)].expiresAt == Some(end as real) && AccessWorks(h.store, cfg, granted, at, end)
    requires forall step | step in steps :: step.now <= end as real
    ensures AccessWorks(End(h, cfg, steps).store, cfg, granted, at, end)
  {
    RunLeaves(h, cfg, steps, DigestOf(at));
    forall now ensures LoadAccess(h.store, cfg, at, now).1 == LoadAccess(End(h, cfg, steps).store, cfg, at, now).1 {
      SameAnswers(h.store, End(h, cfg, steps).store, cfg, at, now, "", [], "", "");
    }
  }

  lemma RefreshLasts(h: History, cfg: Config, steps: seq<Step>, granted: (string, seq<string>), rt: string, end: int)
    requires Families(h) && Run(h, cfg, steps) && DigestOf(rt) in h.family
    requires Undisturbed(h, cfg, steps, h.family[DigestOf(rt)])
    requires DigestOf(rt) in h.store.refresh && DigestOf(rt) !in h.store.access
    requires h.store.refresh[DigestOf(rt)].expiresAt == Some(end as real)
             && RefreshWorks(h.store, cfg, granted, rt, end)
    requires forall step | step in steps :: step.now <= end as real
    ensures RefreshWorks(End(h, cfg, steps).store, cfg, granted, rt, end)
  {
    RunLeaves(h, cfg, steps, DigestOf(rt));
    var s := End(h, cfg, steps).store;
    forall who, asked, now, at', rt'
      ensures ExchangeRefresh(h.store, cfg, who, rt, asked, now, at', rt').1
           == ExchangeRefresh(s, cfg, who, rt, asked, now, at', rt').1
    {
      SameAnswers(h.store, s, cfg, rt, now, who, asked, at', rt');
    }
  }

  /** From a grant on, over any run that does nothing to its login: the access token verifies for
      its client, with the granted scopes, until exactly its expiry, and the refresh token is good
      for an exchange by its client until exactly the end of the login's lifetime. */
  lemma PairsLast(h: History, cfg: Config, step: Step, granted: (string, seq<string>), h1: History, steps: seq<Step>)
    requires Families(h) && InLifetime(h, cfg) && Proper(h, step) && Granted(h, cfg, step) == Some(granted)
    requires h1 == Next(h, cfg, step) && Run(h1, cfg, steps)
    requires DigestOf(step.op.at) in h1.family ==> Undisturbed(h1, cfg, steps, h1.family[DigestOf(step.op.at)])
    ensures DigestOf(step.op.at) in h1.family && h1.family[DigestOf(step.op.at)] < |h1.begun|
    ensures var accessEnd, refreshEnd := Trunc(step.now + cfg.accessTtl as real),
                                         RefreshEnd(cfg, h1.begun[h1.family[DigestOf(step.op.at)]]);
      && ((forall later | later in steps :: later.now <= accessEnd as real) ==>
            AccessWorks(End(h1, cfg, steps).store, cfg, granted, step.op.at, accessEnd))
      && ((forall later | later in steps :: later.now <= refreshEnd as real) ==>
            RefreshWorks(End(h1, cfg, steps).store, cfg, granted, step.op.rt, refreshEnd))
  {
    GrantedLogin(h, cfg, step);
    GrantedPair(h, cfg, step, granted);
    var accessEnd, refreshEnd := Trunc(step.now + cfg.accessTtl as real),
                                 RefreshEnd(cfg, h1.begun[h1.family[DigestOf(step.op.at)]]);
    if forall later | later in steps :: later.now <= accessEnd as real {
      AccessLasts(h1, cfg, steps, granted, step.op.at, accessEnd);
    }
    if forall later | later in steps :: later.now <= refreshEnd as real {
      RefreshLasts(h1, cfg, steps, granted, step.op.rt, refreshEnd);
    }
  }
}
