/** Over every run, each parked transaction mints at most one code and each code yields at most
    one token pair; a replayed submission gets the identical redirect and mints nothing. */
module LoginRuns {
  import opened PyDict
  import opened LimiterSpec
  import opened StoreSpec
  import opened TokenSpec
  import opened LoginSpec
  import StoreIntegrity

  datatype Server = Server(cfg: Config, limits: Limits, maxClients: nat)

  datatype Op =
    | Ask(client: string, params: Params, txn: string)
    | Submit(txn: string, password: string, ip: string, code: string)
    | Exchange(client: string, code: string, at: string, rt: string)
    | Enrol(id: string, redirects: seq<string>, rec: ClientRec)
    | Sweep
    /** Whatever else the token endpoint does to the store. */
    | Elsewhere(store: Store)

  datatype Step = Step(now: real, op: Op)

  /** What has happened: the transactions parked, the redirect each login produced, whose each
      code is, and in order the transactions that minted, the codes that yielded a pair, and
      the redirects that submissions were answered with. */
  datatype History = History(
    auth: Auth,
    parked: set<string>,
    mint: map<string, Redirect>,
    owner: map<string, string>,
    mints: seq<string>,
    redeemed: seq<string>,
    answers: seq<(string, Redirect)>)

  const BEGIN := History(Auth(Empty(), map[], map[], START, EMPTY_STORE), {}, map[], map[], [], [], [])

  /** Random identifiers are new, and the store stays well formed. */
  ghost predicate Proper(h: History, step: Step) {
    && (step.op.Ask? ==> step.op.txn !in h.parked)
    && (step.op.Submit? ==> step.op.code !in h.owner)
    && (step.op.Elsewhere? ==> Ok(step.op.store.clients))
  }

  function AfterSubmit(h: History, a: Auth, login: Login, txn: string, code: string): History {
    var answers := if login.SentTo? then h.answers + [(txn, login.redirect)] else h.answers;
    if login.SentTo? && code in a.codes then
      h.(auth := a, answers := answers, mint := h.mint[txn := login.redirect], owner := h.owner[code := txn],
         mints := h.mints + [txn])
    else h.(auth := a, answers := answers)
  }

  function Next(h: History, s: Server, step: Step): History
    requires Sound(h.auth) && s.limits.maxTracked > 0
  {
    var now := step.now;
    match step.op
    case Ask(client, params, txn) =>
      h.(auth := Authorize(h.auth, s.cfg, client, params, now, txn).0, parked := h.parked + {txn})
    case Submit(txn, password, ip, code) =>
      var (a, login) := CompleteLogin(h.auth, s.cfg, s.limits, txn, password, ip, now, code);
      AfterSubmit(h, a, login, txn, code)
    case Exchange(client, code, at, rt) =>
      var (a, grant) := ExchangeCode(h.auth, s.cfg, client, code, now, at, rt);
      h.(auth := a, redeemed := if grant.Issued? then h.redeemed + [code] else h.redeemed)
    case Enrol(id, redirects, rec) =>
      h.(auth := RegisterClient(h.auth, s.cfg, s.maxClients, id, redirects, rec, now).0)
    case Sweep => h.(auth := PrunePending(h.auth, s.cfg, now))
    case Elsewhere(store) => h.(auth := h.auth.(store := store))
  }

  // ------------------------------------------------------------------ the invariant

  /** A parked transaction has not minted; a completed one remembers exactly what it minted. */
  ghost predicate Tables(h: History) {
    && Sound(h.auth)
    && (forall t | t in h.auth.pending.vals :: t in h.parked && t !in h.mint)
    && (forall t | t in h.auth.completed :: t in h.mint && h.auth.completed[t].redirect == h.mint[t])
    && (forall t | t in h.mint :: t in h.parked)
    && (forall c | c in h.auth.codes :: c in h.owner)
  }

  predicate Logs(h: History) {
    && Distinct(h.mints) && (forall t | t in h.mints :: t in h.mint)
    && Distinct(h.redeemed) && (forall c | c in h.redeemed :: c in h.owner && c !in h.auth.codes)
    && (forall x | x in h.answers :: x.0 in h.mint && h.mint[x.0] == x.1)
    && (forall t | t in h.mint :: h.mint[t].code in h.owner && h.owner[h.mint[t].code] == t)
  }

  /** Only what was there before, and nothing new. */
  predicate NoNews(a: Auth, b: Auth) {
    && (forall t | t in b.pending.vals :: t in a.pending.vals && b.pending.vals[t] == a.pending.vals[t])
    && (forall t | t in b.completed :: t in a.completed && b.completed[t] == a.completed[t])
    && (forall c | c in b.codes :: c in a.codes && b.codes[c] == a.codes[c])
  }

  lemma NoNewsKeeps(h: History, b: Auth)
    requires Tables(h) && Logs(h) && NoNews(h.auth, b) && Sound(b)
    ensures Tables(h.(auth := b)) && Logs(h.(auth := b))
  {
  }

  lemma PruneIsNoNews(a: Auth, cfg: Config, now: real)
    requires Sound(a)
    ensures NoNews(a, PrunePending(a, cfg, now)) && Sound(PrunePending(a, cfg, now))
  {
    PruneSound(a, cfg, now);
  }

  lemma AuthorizeParks(a: Auth, cfg: Config, client: string, p: Params, now: real, txn: string)
    requires Sound(a)
    ensures var b := Authorize(a, cfg, client, p, now, txn).0;
      && Sound(b) && b.limiter == a.limiter && b.store == a.store
      && (forall t | t in b.pending.vals && t != txn :: t in a.pending.vals && b.pending.vals[t] == a.pending.vals[t])
      && (forall t | t in b.completed :: t in a.completed && b.completed[t] == a.completed[t])
      && (forall c | c in b.codes :: c in a.codes)
  {
    var pruned := PrunePending(a, cfg, now);
    PruneIsNoNews(a, cfg, now);
    RoomMade(pruned.pending);
    PutOk(MakeRoom(pruned.pending), txn, Park(client, p, now));
  }

  lemma AskKeeps(h: History, s: Server, step: Step)
    requires Tables(h) && Logs(h) && Proper(h, step) && step.op.Ask? && s.limits.maxTracked > 0
    ensures Tables(Next(h, s, step)) && Logs(Next(h, s, step))
  {
    AuthorizeParks(h.auth, s.cfg, step.op.client, step.op.params, step.now, step.op.txn);
  }

  // ----------------------------------------------------------------------- submission

  /** A code is minted exactly when the address is not locked, the transaction is parked and
      has not expired, and the password is right. */
  lemma MintsExactly(a: Auth, cfg: Config, limits: Limits, txn: string, password: string, ip: string, now: real,
                     code: string)
    requires Sound(a) && limits.maxTracked > 0 && code !in a.codes
    ensures var (b, login) := CompleteLogin(a, cfg, limits, txn, password, ip, now, code);
      && (code in b.codes <==>
            && LockedFor(a.limiter, ip, now).1 <= 0.0
            && txn in a.pending.vals && now <= a.pending.vals[txn].createdAt + cfg.pendingTtl as real
            && password == cfg.operatorPassword)
      && (code in b.codes ==> login.SentTo? && login.redirect.code == code)
  {
  }

  lemma MintSound(a: Auth, cfg: Config, txn: string, ip: string, now: real, code: string)
    requires Sound(a) && txn in a.pending.vals
    ensures Sound(Mint(a, cfg, txn, ip, now, code).0) && txn !in Mint(a, cfg, txn, ip, now, code).0.pending.vals
    ensures forall t | t in Mint(a, cfg, txn, ip, now, code).0.pending.vals :: t in a.pending.vals
  {
    PopOk(a.limiter.ips, ip);
    PopOk(a.pending, txn);
  }

  /** A submission that mints nothing changes no table; a replay gets the stored redirect. */
  lemma NothingMinted(a: Auth, cfg: Config, limits: Limits, txn: string, password: string, ip: string, now: real,
                      code: string)
    requires Sound(a) && limits.maxTracked > 0
    requires txn !in a.pending.vals || password != cfg.operatorPassword
    ensures var (b, login) := Judge(a, cfg, limits, txn, password, ip, now, code);
      && b == a.(limiter := b.limiter) && Sound(b)
      && (login.SentTo? <==> txn !in a.pending.vals && txn in a.completed && password == cfg.operatorPassword)
      && (login.SentTo? ==> login.redirect == a.completed[txn].redirect)
  {
    StepsOk(a.limiter, ip, limits, now);
  }

  lemma UnlockedSound(a: Auth, cfg: Config, limits: Limits, ip: string, now: real)
    requires Sound(a) && limits.maxTracked > 0
    ensures var b := a.(limiter := LockedFor(a.limiter, ip, now).0);
      Sound(b) && NoNews(a, b) && Sound(PrunePending(b, cfg, now)) && NoNews(a, PrunePending(b, cfg, now))
  {
    StepsOk(a.limiter, ip, limits, now);
    PruneIsNoNews(a.(limiter := LockedFor(a.limiter, ip, now).0), cfg, now);
  }

  /** A replay of a completed submission with the right password is answered with the redirect
      of the first one, for as long as that is remembered; it mints nothing and costs nothing. */
  lemma ReplayIsIdentical(a: Auth, cfg: Config, limits: Limits, txn: string, ip: string, now: real, code: string)
    requires Sound(a) && limits.maxTracked > 0 && txn !in a.pending.vals
    requires LockedFor(a.limiter, ip, now).1 <= 0.0
    ensures var (b, login) := CompleteLogin(a, cfg, limits, txn, cfg.operatorPassword, ip, now, code);
      && b.codes.Keys <= a.codes.Keys && b.store == a.store && b.limiter == LockedFor(a.limiter, ip, now).0
      && (login == if txn in a.completed && now <= a.completed[txn].expiresAt then SentTo(a.completed[txn].redirect)
                   else LinkExpired)
  {
    UnlockedSound(a, cfg, limits, ip, now);
    var b := PrunePending(a.(limiter := LockedFor(a.limiter, ip, now).0), cfg, now);
    NothingMinted(b, cfg, limits, txn, cfg.operatorPassword, ip, now, code);
  }

  /** Does the server evaluate a password for `txn`: it is parked, or completed and remembered. */
  predicate Known(a: Auth, cfg: Config, txn: string, now: real) {
    || (txn in a.pending.vals && now <= a.pending.vals[txn].createdAt + cfg.pendingTtl as real)
    || (txn in a.completed && now <= a.completed[txn].expiresAt)
  }

  /** A wrong password costs one attempt of its address wherever one is evaluated, on a parked
      transaction and on a replay alike, and nothing where none is. Only a parked transaction is
      reported as a wrong password; and a locked address learns nothing. */
  lemma WrongGuessIsAnAttempt(a: Auth, cfg: Config, limits: Limits, txn: string, password: string, ip: string,
                              now: real, code: string)
    requires Sound(a) && limits.maxTracked > 0 && password != cfg.operatorPassword
    ensures var (b, login) := CompleteLogin(a, cfg, limits, txn, password, ip, now, code);
      && !login.SentTo? && NoNews(a, b) && b.store == a.store
      && (if Known(a, cfg, txn, now) then (b.limiter, !login.Locked?) == Attempt(a.limiter, ip, limits, now)
          else b.limiter == LockedFor(a.limiter, ip, now).0)
      && login == (if LockedFor(a.limiter, ip, now).1 > 0.0 then Locked(LockedFor(a.limiter, ip, now).1)
                   else if txn in a.pending.vals && now <= a.pending.vals[txn].createdAt + cfg.pendingTtl as real
                   then Rejected else LinkExpired)
  {
    UnlockedSound(a, cfg, limits, ip, now);
    var unlocked := a.(limiter := LockedFor(a.limiter, ip, now).0);
    if LockedFor(a.limiter, ip, now).1 <= 0.0 {
      NothingMinted(PrunePending(unlocked, cfg, now), cfg, limits, txn, password, ip, now, code);
    }
  }

  /** What a submission does to the history is what the verdict does to the pruned tables. */
  lemma SubmitIsJudged(h: History, s: Server, op: Op, now: real)
    requires Sound(h.auth) && op.Submit? && s.limits.maxTracked > 0
    requires LockedFor(h.auth.limiter, op.ip, now).1 <= 0.0
    ensures var pruned := PrunePending(h.auth.(limiter := LockedFor(h.auth.limiter, op.ip, now).0), s.cfg, now);
      && Sound(pruned)
      && var (b, login) := Judge(pruned, s.cfg, s.limits, op.txn, op.password, op.ip, now, op.code);
         Next(h, s, Step(now, op)) == AfterSubmit(h.(auth := pruned), b, login, op.txn, op.code)
  {
    UnlockedSound(h.auth, s.cfg, s.limits, op.ip, now);
  }

  lemma SubmitKeeps(h: History, s: Server, step: Step)
    requires Tables(h) && Logs(h) && Proper(h, step) && step.op.Submit? && s.limits.maxTracked > 0
    ensures Tables(Next(h, s, step)) && Logs(Next(h, s, step))
  {
    var op, now := step.op, step.now;
    UnlockedSound(h.auth, s.cfg, s.limits, op.ip, now);
    var a := h.auth.(limiter := LockedFor(h.auth.limiter, op.ip, now).0);
    if LockedFor(h.auth.limiter, op.ip, now).1 > 0.0 {
      NoNewsKeeps(h, a);
    } else {
      var pruned := PrunePending(a, s.cfg, now);
      NoNewsKeeps(h, pruned);
      JudgeKeeps(h.(auth := pruned), s, op, now);
      SubmitIsJudged(h, s, op, now);
    }
  }

  lemma JudgeKeeps(h: History, s: Server, op: Op, now: real)
    requires Tables(h) && Logs(h) && op.Submit? && op.code !in h.owner && s.limits.maxTracked > 0
    ensures var (b, login) := Judge(h.auth, s.cfg, s.limits, op.txn, op.password, op.ip, now, op.code);
      Tables(AfterSubmit(h, b, login, op.txn, op.code)) && Logs(AfterSubmit(h, b, login, op.txn, op.code))
  {
    if op.txn in h.auth.pending.vals && op.password == s.cfg.operatorPassword {
      MintingKeeps(h, s.cfg, op.txn, op.ip, now, op.code);
    } else {
      var (b, login) := Judge(h.auth, s.cfg, s.limits, op.txn, op.password, op.ip, now, op.code);
      NothingMinted(h.auth, s.cfg, s.limits, op.txn, op.password, op.ip, now, op.code);
      AnswerKeeps(h, b, login, op.txn, op.code);
    }
  }

  lemma AnswerKeeps(h: History, b: Auth, login: Login, txn: string, code: string)
    requires Tables(h) && Logs(h) && Sound(b) && b == h.auth.(limiter := b.limiter) && code !in h.owner
    requires login.SentTo? ==> txn in h.auth.completed && login.redirect == h.auth.completed[txn].redirect
    ensures Tables(AfterSubmit(h, b, login, txn, code)) && Logs(AfterSubmit(h, b, login, txn, code))
  {
  }

  lemma MintingKeeps(h: History, cfg: Config, txn: string, ip: string, now: real, code: string)
    requires Tables(h) && Logs(h) && code !in h.owner && txn in h.auth.pending.vals
    ensures var (b, login) := Mint(h.auth, cfg, txn, ip, now, code);
      Tables(AfterSubmit(h, b, login, txn, code)) && Logs(AfterSubmit(h, b, login, txn, code))
  {
    MintSound(h.auth, cfg, txn, ip, now, code);
    var (b, login) := Mint(h.auth, cfg, txn, ip, now, code);
    MintKeeps(h, b, login, txn, code);
  }

  lemma MintKeeps(h: History, b: Auth, login: Login, txn: string, code: string)
    requires Tables(h) && Logs(h) && code !in h.owner
    requires Sound(b) && login.SentTo? && login.redirect.code == code && code in b.codes
    requires txn in h.auth.pending.vals && txn !in b.pending.vals
    requires b.completed.Keys <= h.auth.completed.Keys + {txn} && b.codes.Keys <= h.auth.codes.Keys + {code}
    requires txn in b.completed && b.completed[txn].redirect == login.redirect
    requires forall t | t in b.pending.vals :: t in h.auth.pending.vals
    requires forall t | t in b.completed && t != txn :: b.completed[t] == h.auth.completed[t]
    ensures Tables(AfterSubmit(h, b, login, txn, code)) && Logs(AfterSubmit(h, b, login, txn, code))
  {
    MintTables(h, b, login, txn, code);
    MintLogs(h, b, login, txn, code);
  }

  lemma MintTables(h: History, b: Auth, login: Login, txn: string, code: string)
    requires Tables(h) && Sound(b) && login.SentTo? && code in b.codes
    requires txn in h.auth.pending.vals && txn !in b.pending.vals
    requires b.completed.Keys <= h.auth.completed.Keys + {txn} && b.codes.Keys <= h.auth.codes.Keys + {code}
    requires txn in b.completed && b.completed[txn].redirect == login.redirect
    requires forall t | t in b.pending.vals :: t in h.auth.pending.vals
    requires forall t | t in b.completed && t != txn :: b.completed[t] == h.auth.completed[t]
    ensures Tables(AfterSubmit(h, b, login, txn, code))
  {
  }

  lemma MintLogs(h: History, b: Auth, login: Login, txn: string, code: string)
    requires Logs(h) && code !in h.owner && txn !in h.mint
    requires login.SentTo? && login.redirect.code == code && code in b.codes
    requires b.codes.Keys <= h.auth.codes.Keys + {code}
    ensures Logs(AfterSubmit(h, b, login, txn, code))
  {
  }

  // -------------------------------------------------------------------------- the rest

  lemma ExchangeKeeps(h: History, s: Server, step: Step)
    requires Tables(h) && Logs(h) && step.op.Exchange? && s.limits.maxTracked > 0
    ensures Tables(Next(h, s, step)) && Logs(Next(h, s, step))
  {
  }

  lemma EnrolKeeps(h: History, s: Server, step: Step)
    requires Tables(h) && Logs(h) && step.op.Enrol? && s.limits.maxTracked > 0
    ensures Tables(Next(h, s, step)) && Logs(Next(h, s, step))
  {
    EnrolIsNoNews(h.auth, s.cfg, s.maxClients, step.op.id, step.op.redirects, step.op.rec, step.now);
    NoNewsKeeps(h, Next(h, s, step).auth);
  }

  lemma EnrolIsNoNews(a: Auth, cfg: Config, maxClients: nat, id: string, redirects: seq<string>, rec: ClientRec,
                      now: real)
    requires Sound(a)
    ensures var b := RegisterClient(a, cfg, maxClients, id, redirects, rec, now).0;
      NoNews(a, b) && Sound(b)
  {
    var pruned := PrunePending(a, cfg, now);
    PruneIsNoNews(a, cfg, now);
    EnrolledOk(pruned.store, id, Public(rec), PendingClients(pruned), maxClients, now);
  }

  /** A client is registered iff it names redirect URIs, all of them from the allowlist, and the
      store has or can make room for it. It is stored as a public one, without a secret, with its
      own metadata and date; a refused one leaves the store alone. */
  lemma RegisteredArePublic(a: Auth, cfg: Config, maxClients: nat, id: string, redirects: seq<string>, rec: ClientRec,
                            now: real)
    requires Sound(a)
    ensures var (b, r) := RegisterClient(a, cfg, maxClients, id, redirects, rec, now);
      && (r.Registered? ==>
            && id in b.store.clients.vals
            && b.store.clients.vals[id].authMethod == "none" && b.store.clients.vals[id].secret.None?
            && b.store.clients.vals[id].metadata == rec.metadata
            && (!rec.issuedAt.Missing? ==> b.store.clients.vals[id].issuedAt == rec.issuedAt))
      && (!r.Registered? ==> b.store == a.store)
      && (r == NoRedirect <==> redirects == [])
      && (r == RedirectRefused <==> exists u :: u in redirects && u !in cfg.redirects)
      && (r == LimitReached ==>
            id !in a.store.clients.vals && |a.store.clients.keys| >= maxClients
            && forall c | c in a.store.clients.vals :: c in Holders(a.store))
      && (r == Registered ==>
            || id in a.store.clients.vals || |a.store.clients.keys| < maxClients
            || exists c :: c in a.store.clients.vals && c !in Holders(a.store))
  {
    var pruned := PrunePending(a, cfg, now);
    StoreIntegrity.PutClientFails(pruned.store, id, Public(rec), PendingClients(pruned), maxClients, now);
    if PutClient(pruned.store, id, Public(rec), PendingClients(pruned), maxClients, now).1 {
      var _ := StoreIntegrity.PutClientStores(pruned.store, id, Public(rec), PendingClients(pruned), maxClients, now);
    }
  }

  /** Client `c` has a transaction that waits for the operator. */
  predicate Waits(a: Auth, cfg: Config, c: string, now: real) {
    exists t :: t in a.pending.vals && a.pending.vals[t].clientId == c
                && now <= a.pending.vals[t].createdAt + cfg.pendingTtl as real
  }

  /** A registration costs no client its place but one without a token; and one that waits for
      the operator only if every client without a token does. */
  lemma WaitingClientsAreSpared(a: Auth, cfg: Config, maxClients: nat, id: string, redirects: seq<string>,
                                rec: ClientRec, now: real, c: string)
    requires Sound(a) && c in a.store.clients.vals
    requires c !in RegisterClient(a, cfg, maxClients, id, redirects, rec, now).0.store.clients.vals
    ensures c !in Holders(a.store)
    ensures Waits(a, cfg, c, now) ==>
              forall d | d in a.store.clients.vals && d !in Holders(a.store) :: Waits(a, cfg, d, now)
  {
    var b := PrunePending(a, cfg, now);
    var lost := StoreIntegrity.PutClientStores(b.store, id, Public(rec), PendingClients(b), maxClients, now);
    assert c in lost && StoreIntegrity.MayGo(b.store, PendingClients(b), c);
    forall d ensures d in PendingClients(b) <==> Waits(a, cfg, d, now) {
      WaitingClients(a, cfg, now, d);
    }
  }

  lemma WaitingClients(a: Auth, cfg: Config, now: real, c: string)
    ensures c in PendingClients(PrunePending(a, cfg, now)) <==> Waits(a, cfg, c, now)
  {
    var b := PrunePending(a, cfg, now);
    if Waits(a, cfg, c, now) {
      var t :| t in a.pending.vals && a.pending.vals[t].clientId == c
               && now <= a.pending.vals[t].createdAt + cfg.pendingTtl as real;
      assert t in b.pending.vals;
    }
  }

  lemma EnrolledOk(s: Store, id: string, rec: ClientRec, protected: set<string>, maxClients: nat, now: real)
    requires Ok(s.clients)
    ensures Ok(PutClient(s, id, rec, protected, maxClients, now).0.clients)
  {
    PutOk(s.clients, id, Dated(rec, now));
    var candidates := Evictable(s, protected);
    if candidates != [] {
      var victim := candidates[FirstMin(candidates, IssueTimes(s.clients))];
      PopOk(s.clients, victim);
      PutOk(Pop(s.clients, victim), id, Dated(rec, now));
    }
  }

  lemma StepKeeps(h: History, s: Server, step: Step)
    requires Tables(h) && Logs(h) && Proper(h, step) && s.limits.maxTracked > 0
    ensures Tables(Next(h, s, step)) && Logs(Next(h, s, step))
  {
    match step.op
    case Ask(_, _, _) => AskKeeps(h, s, step);
    case Submit(_, _, _, _) => SubmitKeeps(h, s, step);
    case Exchange(_, _, _, _) => ExchangeKeeps(h, s, step);
    case Enrol(_, _, _) => EnrolKeeps(h, s, step);
    case Sweep =>
      PruneIsNoNews(h.auth, s.cfg, step.now);
      NoNewsKeeps(h, PrunePending(h.auth, s.cfg, step.now));
    case Elsewhere(store) => NoNewsKeeps(h, h.auth.(store := store));
  }

  // ------------------------------------------------------------------------------ runs

  ghost predicate Run(h: History, s: Server, steps: seq<Step>)
    requires s.limits.maxTracked > 0
    decreases |steps|
  {
    steps == [] || (Sound(h.auth) && Proper(h, steps[0]) && Run(Next(h, s, steps[0]), s, steps[1..]))
  }

  ghost function End(h: History, s: Server, steps: seq<Step>): History
    requires s.limits.maxTracked > 0 && Run(h, s, steps)
    decreases |steps|
  {
    if steps == [] then h else End(Next(h, s, steps[0]), s, steps[1..])
  }

  lemma {:induction false} RunKeeps(h: History, s: Server, steps: seq<Step>)
    requires s.limits.maxTracked > 0 && Tables(h) && Logs(h) && Run(h, s, steps)
    ensures Tables(End(h, s, steps)) && Logs(End(h, s, steps))
    decreases |steps|
  {
    if steps != [] {
      StepKeeps(h, s, steps[0]);
      RunKeeps(Next(h, s, steps[0]), s, steps[1..]);
    }
  }

  /** Over every run: no transaction mints twice, no code yields two pairs, every submission of
      a transaction that is answered gets the same redirect, no two transactions share a code,
      and no transaction is parked and completed at once. */
  lemma CodesAreSingleUse(s: Server, steps: seq<Step>)
    requires s.limits.maxTracked > 0 && Run(BEGIN, s, steps)
    ensures var h := End(BEGIN, s, steps);
      && (forall i, j | 0 <= i < j < |h.mints| :: h.mints[i] != h.mints[j])
      && (forall i, j | 0 <= i < j < |h.redeemed| :: h.redeemed[i] != h.redeemed[j])
      && (forall c | c in h.redeemed :: c in h.owner)
      && (forall i, j | 0 <= i < |h.answers| && 0 <= j < |h.answers| ::
            h.answers[i].0 == h.answers[j].0 <==> h.answers[i].1.code == h.answers[j].1.code)
      && (forall i, j | 0 <= i < |h.answers| && 0 <= j < |h.answers| ::
            h.answers[i].0 == h.answers[j].0 ==> h.answers[i].1 == h.answers[j].1)
      && (forall t | t in h.auth.pending.vals :: t !in h.auth.completed)
  {
    RunKeeps(BEGIN, s, steps);
    var h := End(BEGIN, s, steps);
    forall i, j | 0 <= i < |h.answers| && 0 <= j < |h.answers|
      ensures h.answers[i].0 == h.answers[j].0 <==> h.answers[i].1.code == h.answers[j].1.code
      ensures h.answers[i].0 == h.answers[j].0 ==> h.answers[i].1 == h.answers[j].1
    {
      assert h.answers[i] in h.answers && h.answers[j] in h.answers;
    }
  }
}
