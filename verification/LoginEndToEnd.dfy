/** From an authorization request to a verified bearer token, with other people's requests in
    between: what the client asked for is what it gets. */
module LoginEndToEnd {
  import opened Text
  import opened PyDict
  import opened LimiterSpec
  import opened StoreSpec
  import opened TokenSpec
  import opened LoginSpec
  import opened LoginRuns
  import opened LoginRedirects
  import opened LoginCodes
  import opened PendingTable
  import TokenFamilies

  lemma {:induction false} BehindLast(keys: seq<string>, last: string)
    requires last !in keys
    ensures Behind(keys + [last], last) == 0
  {
    if keys != [] {
      BehindLast(keys[1..], last);
      assert (keys + [last])[0] == keys[0] && (keys + [last])[1..] == keys[1..] + [last];
    }
  }

  /** What a request may be. */
  predicate Acceptable(cfg: Config, p: Params) {
    && p.redirectUri in cfg.redirects && p.challenge != ""
    && (p.resource.None? || p.resource == Some(cfg.audience) || p.resource == Some(cfg.issuer))
  }

  /** An accepted request is parked at the end of the queue. */
  lemma ParkedLast(h: History, s: Server, client: string, p: Params, txn: string, before: real, asked: real)
    requires Tables(h) && Logs(h) && s.limits.maxTracked > 0 && txn !in h.parked && Acceptable(s.cfg, p)
    requires Queue(h.auth.pending, before) && before <= asked
    ensures var pending := Next(h, s, Step(asked, Ask(client, p, txn))).auth.pending;
      && txn in pending.vals && pending.vals[txn] == ParkedFor((client, p, asked))
      && Queue(pending, asked) && Behind(pending.keys, txn) == 0
  {
    ParksExactly(h.auth, s.cfg, client, p, asked, txn);
    AuthorizeQueues(h.auth, s.cfg, client, p, before, asked, txn);
    var live := Among(h.auth.pending.keys, LoginSpec.Fresh(h.auth.pending, s.cfg.pendingTtl, asked));
    BehindLast(if |live| == MAX_PENDING then live[1..] else live, txn);
  }

  /** It stays parked through fewer than 64 other accepted requests, unless it is approved. */
  lemma ParkedThrough(h: History, s: Server, client: string, p: Params, txn: string, before: real, asked: real,
                      others: seq<Step>)
    requires Tables(h) && Logs(h) && s.limits.maxTracked > 0 && txn !in h.parked && Acceptable(s.cfg, p)
    requires Queue(h.auth.pending, before) && before <= asked
    requires var h1 := Next(h, s, Step(asked, Ask(client, p, txn)));
      && Run(h1, s, others) && Clocked(asked, others) && Parkings(others, s.cfg) < MAX_PENDING
      && txn !in End(h1, s, others).mint
    requires forall step | step in others :: step.now <= asked + s.cfg.pendingTtl as real
    ensures var h2 := End(Next(h, s, Step(asked, Ask(client, p, txn))), s, others);
      && Tables(h2) && Logs(h2)
      && txn in h2.auth.pending.vals && h2.auth.pending.vals[txn] == ParkedFor((client, p, asked))
  {
    var ask := Step(asked, Ask(client, p, txn));
    StepKeeps(h, s, ask);
    ParkedLast(h, s, client, p, txn, before, asked);
    ParkedSurvives(Next(h, s, ask), s, others, asked, txn);
    RunKeeps(Next(h, s, ask), s, others);
  }

  lemma Approval(a: Auth, s: Server, asked: (string, Params, real), op: Op, approved: real)
    requires Sound(a) && s.limits.maxTracked > 0 && op.Submit? && op.password == s.cfg.operatorPassword
    requires op.txn in a.pending.vals && a.pending.vals[op.txn] == ParkedFor(asked)
    requires approved <= asked.2 + s.cfg.pendingTtl as real && LockedFor(a.limiter, op.ip, approved).1 <= 0.0
    ensures var (b, login) := CompleteLogin(a, s.cfg, s.limits, op.txn, op.password, op.ip, approved, op.code);
      && login == SentTo(Back(asked, op.code))
      && op.code in b.codes && b.codes[op.code] == CodeFor(asked, s.cfg, approved)
  {
    SubmitThins(a, s, op, approved);
    PrunedThins(a, s, op.ip, approved);
    assert Approves(a, s, op, approved);
    MintStores(PrunedFor(a, s.cfg, op.ip, approved), s.cfg, op.txn, op.ip, approved, op.code);
  }

  /** The operator approves it: the browser is sent back, and the code is stored. */
  lemma Approved(h: History, s: Server, asked: (string, Params, real), txn: string, ip: string, code: string,
                 approved: real)
    requires Sound(h.auth) && s.limits.maxTracked > 0
    requires txn in h.auth.pending.vals && h.auth.pending.vals[txn] == ParkedFor(asked)
    requires approved <= asked.2 + s.cfg.pendingTtl as real && LockedFor(h.auth.limiter, ip, approved).1 <= 0.0
    ensures var h1 := Next(h, s, Step(approved, Submit(txn, s.cfg.operatorPassword, ip, code)));
      && h1.answers == h.answers + [(txn, Back(asked, code))]
      && code in h1.auth.codes && h1.auth.codes[code] == CodeFor(asked, s.cfg, approved)
  {
    Approval(h.auth, s, asked, Submit(txn, s.cfg.operatorPassword, ip, code), approved);
  }

  /** The code stays through the steps of others until it is presented. */
  lemma ApprovedThrough(h: History, s: Server, asked: (string, Params, real), txn: string, ip: string, code: string,
                        approved: real, others: seq<Step>)
    requires Tables(h) && Logs(h) && s.limits.maxTracked > 0 && code !in h.owner
    requires txn in h.auth.pending.vals && h.auth.pending.vals[txn] == ParkedFor(asked)
    requires approved <= asked.2 + s.cfg.pendingTtl as real && LockedFor(h.auth.limiter, ip, approved).1 <= 0.0
    requires Run(Next(h, s, Step(approved, Submit(txn, s.cfg.operatorPassword, ip, code))), s, others)
    requires forall step | step in others ::
               step.now <= approved + s.cfg.codeTtl as real && !(step.op.Exchange? && step.op.code == code)
    ensures var h1 := Next(h, s, Step(approved, Submit(txn, s.cfg.operatorPassword, ip, code)));
      && h1.answers == h.answers + [(txn, Back(asked, code))]
      && var h2 := End(h1, s, others); code in h2.auth.codes && h2.auth.codes[code] == CodeFor(asked, s.cfg, approved)
  {
    Approved(h, s, asked, txn, ip, code, approved);
    StepKeeps(h, s, Step(approved, Submit(txn, s.cfg.operatorPassword, ip, code)));
    CodeStays(Next(h, s, Step(approved, Submit(txn, s.cfg.operatorPassword, ip, code))), s, others, code);
  }

  lemma PairForCode(a: Auth, cfg: Config, client: string, code: string, now: real, at: string, rt: string, later: real)
    requires LoadCode(a, client, code).Some? && now <= a.codes[code].expiresAt
    requires later <= Trunc(now + cfg.accessTtl as real) as real
    ensures var (b, grant) := ExchangeCode(a, cfg, client, code, now, at, rt);
      && grant == Issued(at, rt, a.codes[code].scopes)
      && LoadAccess(b.store, cfg, at, later).1
         == Some(Bearer(client, a.codes[code].scopes, Some(Trunc(now + cfg.accessTtl as real)), Some(cfg.audience)))
      && (forall c, t, u, v :: ExchangeCode(b, cfg, c, code, t, u, v).1 == InvalidGrant(CodeUsed))
  {
    TokenFamilies.IssuedTokensWork(a.store, cfg, client, a.codes[code].scopes, now, None, None, at, rt, later, client,
                                   [], at, rt);
  }

  /** What a code is worth at `redeemed`: only the client can load it, with its own challenge; and
      the token it yields carries its own scopes, this server's audience, and works until exactly
      its expiry, and so at `used` if that is no later. */
  ghost predicate Grants(a: Auth, cfg: Config, client: string, p: Params, code: string, at: string, rt: string,
                         redeemed: real, used: real)
  {
    var (b, grant) := ExchangeCode(a, cfg, client, code, redeemed, at, rt);
    var end := Trunc(redeemed + cfg.accessTtl as real);
    && LoadCode(a, client, code).Some? && LoadCode(a, client, code).value.challenge == p.challenge
    && (forall other | other != client :: LoadCode(a, other, code).None?)
    && grant == Issued(at, rt, p.scopes)
    && LoadAccess(b.store, cfg, at, used).1
       == if used <= end as real then Some(Bearer(client, p.scopes, Some(end), Some(cfg.audience))) else None
  }

  lemma RedeemedAsAsked(a: Auth, cfg: Config, client: string, p: Params, asked: real, code: string, approved: real,
                        at: string, rt: string, redeemed: real, used: real)
    requires code in a.codes && a.codes[code] == CodeFor((client, p, asked), cfg, approved)
    requires redeemed <= approved + cfg.codeTtl as real
    ensures Grants(a, cfg, client, p, code, at, rt, redeemed, used)
  {
    TokenFamilies.IssuedTokensWork(a.store, cfg, client, p.scopes, redeemed, None, None, at, rt, used, client, [], at,
                                   rt);
  }

  /** An acceptable request, approved in time with the right password from an address that is not
      locked, and redeemed in time. In between, others may do whatever they like: fewer than 64 of
      their requests accepted before the approval, which none of them gives, and any steps after it
      that do not present the code. Then the browser is sent where the client asked, with its own
      state, and the code is worth what the client asked for. */
  lemma AskedIsGranted(h: History, s: Server, client: string, p: Params, txn: string, before: real, asked: real,
                       h1: History, waiting: seq<Step>, h2: History, ip: string, code: string, approved: real,
                       h3: History, pending: seq<Step>, h4: History, at: string, rt: string, redeemed: real, used: real)
    requires Tables(h) && Logs(h) && s.limits.maxTracked > 0 && txn !in h.parked && Acceptable(s.cfg, p)
    requires Queue(h.auth.pending, before) && before <= asked
    requires h1 == Next(h, s, Step(asked, Ask(client, p, txn)))
    requires Run(h1, s, waiting) && Clocked(asked, waiting) && Parkings(waiting, s.cfg) < MAX_PENDING
    requires forall step | step in waiting :: step.now <= asked + s.cfg.pendingTtl as real
    requires h2 == End(h1, s, waiting) && txn !in h2.mint && code !in h2.owner && Sound(h2.auth)
    requires approved <= asked + s.cfg.pendingTtl as real && LockedFor(h2.auth.limiter, ip, approved).1 <= 0.0
    requires h3 == Next(h2, s, Step(approved, Submit(txn, s.cfg.operatorPassword, ip, code)))
    requires Run(h3, s, pending) && h4 == End(h3, s, pending)
    requires forall step | step in pending ::
               step.now <= approved + s.cfg.codeTtl as real && !(step.op.Exchange? && step.op.code == code)
    requires redeemed <= approved + s.cfg.codeTtl as real
    ensures h3.answers == h2.answers + [(txn, Redirect(p.redirectUri, code, p.state))]
    ensures Grants(h4.auth, s.cfg, client, p, code, at, rt, redeemed, used)
  {
    ParkedThrough(h, s, client, p, txn, before, asked, waiting);
    ApprovedThrough(h2, s, (client, p, asked), txn, ip, code, approved, pending);
    RedeemedAsAsked(h4.auth, s.cfg, client, p, asked, code, approved, at, rt, redeemed, used);
  }
}
