/** When exactly a code works, and what it is good for: over every run a code can be exchanged iff
    it was minted, no exchange has presented it yet, and it has not expired; it carries what the
    request it was minted for had asked. */
module LoginCodes {
  import opened Text
  import opened PyDict
  import opened LimiterSpec
  import opened StoreSpec
  import opened TokenSpec
  import opened LoginSpec
  import opened LoginRuns
  import opened LoginRedirects
  import opened PendingTable

  /** `b` is `a`, but for entries that have expired by `now`. */
  predicate Thinned(a: Auth, b: Auth, now: real) {
    && NoNews(a, b)
    && (forall t | t in a.completed && now <= a.completed[t].expiresAt :: t in b.completed)
    && (forall c | c in a.codes && now <= a.codes[c].expiresAt :: c in b.codes)
  }

  /** A prune drops exactly what has expired, and leaves the rest as it was. */
  lemma PrunesExactly(a: Auth, cfg: Config, now: real)
    ensures var b := PrunePending(a, cfg, now);
      && Thinned(a, b, now) && b.limiter == a.limiter && b.store == a.store
      && (forall t :: t in b.pending.vals <==>
            t in a.pending.vals && now <= a.pending.vals[t].createdAt + cfg.pendingTtl as real)
      && (forall t | t in b.completed :: now <= a.completed[t].expiresAt)
      && (forall c | c in b.codes :: now <= a.codes[c].expiresAt)
  {
  }

  // -------------------------------------------------------------------------- the log

  /** `asked[t]`: the client, request and time of transaction `t`. `minted[c]`: the transaction
      and time of code `c`. `presented`: the codes that exchanges have presented since. */
  datatype Log = Log(
    asked: map<string, (string, Params, real)>, minted: map<string, (string, real)>, presented: set<string>)

  const NOTHING := Log(map[], map[], {})

  function Logged(log: Log, h: History, s: Server, step: Step): Log
    requires Sound(h.auth) && s.limits.maxTracked > 0
  {
    match step.op
    case Ask(client, params, txn) => log.(asked := log.asked[txn := (client, params, step.now)])
    case Submit(txn, _, _, code) =>
      if code in Next(h, s, step).owner then log.(minted := log.minted[code := (txn, step.now)]) else log
    case Exchange(_, code, _, _) => if code in log.minted then log.(presented := log.presented + {code}) else log
    case _ => log
  }

  /** The code minted for a request. */
  function CodeFor(asked: (string, Params, real), cfg: Config, when: real): Code {
    var p := asked.1;
    Code(p.scopes, when + cfg.codeTtl as real, asked.0, p.challenge, p.redirectUri, p.explicit, p.resource)
  }

  function Back(asked: (string, Params, real), code: string): Redirect {
    Redirect(asked.1.redirectUri, code, asked.1.state)
  }

  /** The transaction parked for a request. */
  function ParkedFor(asked: (string, Params, real)): Pending {
    var p := asked.1;
    Pending(asked.0, p.redirectUri, p.explicit, p.challenge, p.scopes, p.state, p.resource, asked.2)
  }

  ghost predicate PendingAsAsked(log: Log, a: Auth) {
    forall t | t in a.pending.vals :: t in log.asked && a.pending.vals[t] == ParkedFor(log.asked[t])
  }

  /** A stored code was minted and not presented; one that was, and has not expired, is stored. */
  ghost predicate CodesAsLogged(log: Log, codes: map<string, Code>, cfg: Config, now: real) {
    && (forall c | c in log.minted :: log.minted[c].0 in log.asked)
    && (forall c | c in codes ::
          c in log.minted && c !in log.presented
          && codes[c] == CodeFor(log.asked[log.minted[c].0], cfg, log.minted[c].1))
    && (forall c | c in log.minted && c !in log.presented && now <= log.minted[c].1 + cfg.codeTtl as real ::
          c in codes)
  }

  /** The redirect of a minted code is remembered for a minute. */
  ghost predicate RepliesAsLogged(log: Log, a: Auth, now: real) {
    forall c | c in log.minted && now <= log.minted[c].1 + COMPLETED_LOGIN_TTL ::
      var (t, when) := log.minted[c];
      && t in log.asked && t in a.completed
      && a.completed[t] == Completed(Back(log.asked[t], c), when + COMPLETED_LOGIN_TTL)
  }

  predicate KeysAsLogged(log: Log, h: History) {
    && log.asked.Keys <= h.parked && log.minted.Keys == h.owner.Keys && log.presented <= h.owner.Keys
    && (forall c | c in log.minted :: h.owner[c] == log.minted[c].0)
  }

  ghost predicate LogInv(log: Log, h: History, cfg: Config, now: real) {
    && KeysAsLogged(log, h) && PendingAsAsked(log, h.auth)
    && CodesAsLogged(log, h.auth.codes, cfg, now) && RepliesAsLogged(log, h.auth, now)
  }

  lemma LogLater(log: Log, h: History, cfg: Config, now: real, later: real)
    requires LogInv(log, h, cfg, now) && now <= later
    ensures LogInv(log, h, cfg, later)
  {
  }

  lemma LogThinned(log: Log, h: History, cfg: Config, b: Auth, now: real)
    requires LogInv(log, h, cfg, now) && Thinned(h.auth, b, now)
    ensures LogInv(log, h.(auth := b), cfg, now)
  {
  }

  // -------------------------------------------------------------------------- each step

  lemma AskThins(a: Auth, cfg: Config, client: string, p: Params, now: real, txn: string)
    requires Sound(a)
    ensures var b := Authorize(a, cfg, client, p, now, txn).0;
      && Thinned(a.(pending := b.pending), b, now)
      && (forall t | t in b.pending.vals && t != txn :: t in a.pending.vals && b.pending.vals[t] == a.pending.vals[t])
      && (txn in b.pending.vals && txn !in a.pending.vals ==> b.pending.vals[txn] == ParkedFor((client, p, now)))
  {
    PrunesExactly(a, cfg, now);
    AuthorizeParks(a, cfg, client, p, now, txn);
    ParksExactly(a, cfg, client, p, now, txn);
  }

  lemma AskLogs(log: Log, h: History, s: Server, step: Step)
    requires Tables(h) && Proper(h, step) && step.op.Ask? && s.limits.maxTracked > 0 && LogInv(log, h, s.cfg, step.now)
    ensures LogInv(Logged(log, h, s, step), Next(h, s, step), s.cfg, step.now)
  {
    AskThins(h.auth, s.cfg, step.op.client, step.op.params, step.now, step.op.txn);
    AskLogged(log, h, step.op, step.now, s.cfg, Next(h, s, step).auth);
  }

  lemma AskLogged(log: Log, h: History, op: Op, now: real, cfg: Config, b: Auth)
    requires op.Ask? && op.txn !in h.parked && LogInv(log, h, cfg, now)
    requires forall t | t in b.pending.vals && t != op.txn ::
               t in h.auth.pending.vals && b.pending.vals[t] == h.auth.pending.vals[t]
    requires op.txn in b.pending.vals ==> b.pending.vals[op.txn] == ParkedFor((op.client, op.params, now))
    requires Thinned(h.auth.(pending := b.pending), b, now)
    ensures LogInv(log.(asked := log.asked[op.txn := (op.client, op.params, now)]),
                   h.(auth := b, parked := h.parked + {op.txn}), cfg, now)
  {
  }

  /** The tables a submission from an address that is not locked is judged on. */
  function PrunedFor(a: Auth, cfg: Config, ip: string, now: real): Auth {
    PrunePending(a.(limiter := LockedFor(a.limiter, ip, now).0), cfg, now)
  }

  lemma PrunedThins(a: Auth, s: Server, ip: string, now: real)
    requires Sound(a) && s.limits.maxTracked > 0
    ensures var b := PrunedFor(a, s.cfg, ip, now);
      && Sound(b) && Thinned(a, b, now) && b.store == a.store && b.limiter == LockedFor(a.limiter, ip, now).0
      && (forall t :: t in b.pending.vals <==>
            t in a.pending.vals && now <= a.pending.vals[t].createdAt + s.cfg.pendingTtl as real)
  {
    UnlockedSound(a, s.cfg, s.limits, ip, now);
    PrunesExactly(a.(limiter := LockedFor(a.limiter, ip, now).0), s.cfg, now);
  }

  predicate Approves(a: Auth, s: Server, op: Op, now: real)
    requires op.Submit?
  {
    LockedFor(a.limiter, op.ip, now).1 <= 0.0 && op.txn in PrunedFor(a, s.cfg, op.ip, now).pending.vals
    && op.password == s.cfg.operatorPassword
  }

  /** A submission is judged on the pruned tables, unless its address is locked. */
  lemma SubmissionIsJudged(a: Auth, s: Server, op: Op, now: real)
    requires Sound(a) && op.Submit? && s.limits.maxTracked > 0
    ensures Sound(PrunedFor(a, s.cfg, op.ip, now))
    ensures CompleteLogin(a, s.cfg, s.limits, op.txn, op.password, op.ip, now, op.code)
         == if LockedFor(a.limiter, op.ip, now).1 > 0.0
            then (a.(limiter := LockedFor(a.limiter, op.ip, now).0), Locked(LockedFor(a.limiter, op.ip, now).1))
            else Judge(PrunedFor(a, s.cfg, op.ip, now), s.cfg, s.limits, op.txn, op.password, op.ip, now, op.code)
  {
    PrunedThins(a, s, op.ip, now);
  }

  lemma ThinnedButForLimiter(a: Auth, b: Auth, c: Auth, now: real)
    requires Thinned(a, b, now) && c == b.(limiter := c.limiter)
    ensures Thinned(a, c, now)
  {
  }

  lemma ThinnedAtMost(a: Auth, limiter: Limiter, now: real)
    ensures Thinned(a, a.(limiter := limiter), now)
  {
  }

  /** A submission that approves nothing thins the tables out at most. */
  lemma SubmitThins(a: Auth, s: Server, op: Op, now: real)
    requires Sound(a) && op.Submit? && s.limits.maxTracked > 0
    ensures var (b, login) := CompleteLogin(a, s.cfg, s.limits, op.txn, op.password, op.ip, now, op.code);
      if Approves(a, s, op, now)
      then (b, login) == Mint(PrunedFor(a, s.cfg, op.ip, now), s.cfg, op.txn, op.ip, now, op.code)
      else Thinned(a, b, now)
  {
    var pruned := PrunedFor(a, s.cfg, op.ip, now);
    var b := CompleteLogin(a, s.cfg, s.limits, op.txn, op.password, op.ip, now, op.code).0;
    SubmissionIsJudged(a, s, op, now);
    if LockedFor(a.limiter, op.ip, now).1 > 0.0 {
      ThinnedAtMost(a, b.limiter, now);
    } else {
      PrunedThins(a, s, op.ip, now);
      JudgeThins(pruned, s, op, now);
      if !Approves(a, s, op, now) {
        ThinnedButForLimiter(a, pruned, b, now);
      }
    }
  }

  lemma JudgeThins(a: Auth, s: Server, op: Op, now: real)
    requires Sound(a) && op.Submit? && s.limits.maxTracked > 0
    ensures var (b, login) := Judge(a, s.cfg, s.limits, op.txn, op.password, op.ip, now, op.code);
      if op.txn in a.pending.vals && op.password == s.cfg.operatorPassword
      then (b, login) == Mint(a, s.cfg, op.txn, op.ip, now, op.code)
      else b == a.(limiter := b.limiter)
  {
    if op.txn !in a.pending.vals || op.password != s.cfg.operatorPassword {
      NothingMinted(a, s.cfg, s.limits, op.txn, op.password, op.ip, now, op.code);
    }
  }

  /** What a mint stores, in plain words. */
  predicate Mints(a: Auth, b: Auth, txn: string, p: Pending, code: string, cfg: Config, now: real) {
    && b.pending.vals == a.pending.vals - {txn}
    && b.codes == a.codes[code := Code(p.scopes, now + cfg.codeTtl as real, p.clientId, p.challenge, p.redirectUri,
                                       p.explicit, p.resource)]
    && b.completed == a.completed[txn := Completed(Redirect(p.redirectUri, code, p.state), now + COMPLETED_LOGIN_TTL)]
  }

  lemma MintStores(a: Auth, cfg: Config, txn: string, ip: string, now: real, code: string)
    requires Sound(a) && txn in a.pending.vals
    ensures Mints(a, Mint(a, cfg, txn, ip, now, code).0, txn, a.pending.vals[txn], code, cfg, now)
    ensures Mint(a, cfg, txn, ip, now, code).1
         == SentTo(Redirect(a.pending.vals[txn].redirectUri, code, a.pending.vals[txn].state))
  {
    PopOk(a.pending, txn);
  }

  lemma MintedKeys(log: Log, h: History, txn: string, code: string, h': History, now: real)
    requires KeysAsLogged(log, h) && code !in h.owner
    requires h'.parked == h.parked && h'.owner == h.owner[code := txn]
    ensures KeysAsLogged(log.(minted := log.minted[code := (txn, now)]), h')
    ensures code !in log.minted && code !in log.presented
  {
  }

  lemma ParkedIsNotCompleted(h: History, txn: string)
    requires Tables(h) && txn in h.auth.pending.vals
    ensures txn !in h.auth.completed
  {
  }

  /** A code is minted for a parked transaction. */
  lemma MintLogged(log: Log, h: History, cfg: Config, txn: string, code: string, b: Auth, h': History, now: real)
    requires Tables(h) && LogInv(log, h, cfg, now) && code !in h.owner && txn in h.auth.pending.vals
    requires Mints(h.auth, b, txn, h.auth.pending.vals[txn], code, cfg, now)
    requires h'.auth == b && h'.parked == h.parked && h'.owner == h.owner[code := txn]
    ensures LogInv(log.(minted := log.minted[code := (txn, now)]), h', cfg, now)
  {
    MintedKeys(log, h, txn, code, h', now);
    ParkedIsNotCompleted(h, txn);
    MintedPending(log, h.auth, cfg, txn, code, b, now);
    MintedCode(log, h.auth, cfg, txn, code, b, now);
    MintedReply(log, h.auth, cfg, txn, code, b, now);
  }

  lemma MintedPending(log: Log, a: Auth, cfg: Config, txn: string, code: string, b: Auth, now: real)
    requires PendingAsAsked(log, a) && txn in a.pending.vals
    requires Mints(a, b, txn, a.pending.vals[txn], code, cfg, now)
    ensures PendingAsAsked(log.(minted := log.minted[code := (txn, now)]), b)
  {
  }

  lemma MintedCode(log: Log, a: Auth, cfg: Config, txn: string, code: string, b: Auth, now: real)
    requires PendingAsAsked(log, a) && CodesAsLogged(log, a.codes, cfg, now)
    requires code !in log.minted && code !in log.presented && txn in a.pending.vals
    requires Mints(a, b, txn, a.pending.vals[txn], code, cfg, now)
    ensures CodesAsLogged(log.(minted := log.minted[code := (txn, now)]), b.codes, cfg, now)
  {
    assert a.pending.vals[txn] == ParkedFor(log.asked[txn]);
    assert b.codes == a.codes[code := CodeFor(log.asked[txn], cfg, now)];
    OneMoreCode(log, a.codes, cfg, txn, code, now);
  }

  lemma OneMoreCode(log: Log, codes: map<string, Code>, cfg: Config, txn: string, code: string, now: real)
    requires CodesAsLogged(log, codes, cfg, now) && txn in log.asked && code !in log.minted && code !in log.presented
    ensures CodesAsLogged(log.(minted := log.minted[code := (txn, now)]),
                          codes[code := CodeFor(log.asked[txn], cfg, now)], cfg, now)
  {
  }

  lemma MintedReply(log: Log, a: Auth, cfg: Config, txn: string, code: string, b: Auth, now: real)
    requires PendingAsAsked(log, a) && RepliesAsLogged(log, a, now) && txn in a.pending.vals && txn !in a.completed
    requires Mints(a, b, txn, a.pending.vals[txn], code, cfg, now)
    ensures RepliesAsLogged(log.(minted := log.minted[code := (txn, now)]), b, now)
  {
  }

  lemma ApprovalLogs(log: Log, h: History, s: Server, op: Op, now: real, h': History)
    requires Tables(h) && Logs(h) && op.Submit? && op.code !in h.owner && s.limits.maxTracked > 0
    requires LogInv(log, h, s.cfg, now) && Approves(h.auth, s, op, now)
    requires h'.auth == Mint(PrunedFor(h.auth, s.cfg, op.ip, now), s.cfg, op.txn, op.ip, now, op.code).0
    requires h'.parked == h.parked && h'.owner == h.owner[op.code := op.txn]
    ensures LogInv(log.(minted := log.minted[op.code := (op.txn, now)]), h', s.cfg, now)
  {
    var pruned := PrunedFor(h.auth, s.cfg, op.ip, now);
    PrunedThins(h.auth, s, op.ip, now);
    LogThinned(log, h, s.cfg, pruned, now);
    NoNewsKeeps(h, pruned);
    MintStores(pruned, s.cfg, op.txn, op.ip, now, op.code);
    MintLogged(log, h.(auth := pruned), s.cfg, op.txn, op.code, h'.auth, h', now);
  }

  lemma SubmitLogs(log: Log, h: History, s: Server, step: Step)
    requires Tables(h) && Logs(h) && Proper(h, step) && step.op.Submit? && s.limits.maxTracked > 0
    requires LogInv(log, h, s.cfg, step.now)
    ensures LogInv(Logged(log, h, s, step), Next(h, s, step), s.cfg, step.now)
  {
    var op, now, h' := step.op, step.now, Next(h, s, step);
    SubmitThins(h.auth, s, op, now);
    if Approves(h.auth, s, op, now) {
      ApprovalLogs(log, h, s, op, now, h');
    } else {
      assert op.code !in h'.auth.codes;
      LogThinned(log, h, s.cfg, h'.auth, now);
    }
  }

  lemma PresentedCode(log: Log, codes: map<string, Code>, cfg: Config, now: real, code: string)
    requires CodesAsLogged(log, codes, cfg, now) && code in log.minted
    ensures CodesAsLogged(log.(presented := log.presented + {code}), codes - {code}, cfg, now)
  {
  }

  lemma StoreLogs(log: Log, h: History, cfg: Config, now: real, b: Auth, redeemed: seq<string>)
    requires LogInv(log, h, cfg, now) && b == h.auth.(store := b.store)
    ensures LogInv(log, h.(auth := b, redeemed := redeemed), cfg, now)
  {
  }

  lemma PresentedLogs(log: Log, h: History, cfg: Config, now: real, code: string, b: Auth, redeemed: seq<string>)
    requires LogInv(log, h, cfg, now) && code in log.minted
    requires b == h.auth.(codes := h.auth.codes - {code}, store := b.store)
    ensures LogInv(log.(presented := log.presented + {code}), h.(auth := b, redeemed := redeemed), cfg, now)
  {
    PresentedCode(log, h.auth.codes, cfg, now, code);
  }

  lemma ExchangeLogs(log: Log, h: History, s: Server, step: Step)
    requires Tables(h) && step.op.Exchange? && s.limits.maxTracked > 0 && LogInv(log, h, s.cfg, step.now)
    ensures LogInv(Logged(log, h, s, step), Next(h, s, step), s.cfg, step.now)
  {
    var code, h' := step.op.code, Next(h, s, step);
    if code in log.minted {
      PresentedLogs(log, h, s.cfg, step.now, code, h'.auth, h'.redeemed);
    } else {
      assert h.auth.codes - {code} == h.auth.codes;
      StoreLogs(log, h, s.cfg, step.now, h'.auth, h'.redeemed);
    }
  }

  lemma EnrolThins(a: Auth, cfg: Config, maxClients: nat, id: string, redirects: seq<string>, rec: ClientRec, now: real)
    ensures Thinned(a, RegisterClient(a, cfg, maxClients, id, redirects, rec, now).0, now)
  {
    PrunesExactly(a, cfg, now);
  }

  lemma OtherLogs(log: Log, h: History, s: Server, step: Step)
    requires Tables(h) && s.limits.maxTracked > 0 && LogInv(log, h, s.cfg, step.now)
    requires step.op.Enrol? || step.op.Sweep? || step.op.Elsewhere?
    ensures LogInv(Logged(log, h, s, step), Next(h, s, step), s.cfg, step.now)
  {
    match step.op
    case Enrol(id, redirects, rec) =>
      EnrolThins(h.auth, s.cfg, s.maxClients, id, redirects, rec, step.now);
      LogThinned(log, h, s.cfg, Next(h, s, step).auth, step.now);
    case Sweep =>
      PrunesExactly(h.auth, s.cfg, step.now);
      LogThinned(log, h, s.cfg, PrunePending(h.auth, s.cfg, step.now), step.now);
    case Elsewhere(store) => LogThinned(log, h, s.cfg, h.auth.(store := store), step.now);
  }

  lemma StepLogs(log: Log, h: History, s: Server, step: Step, before: real)
    requires Tables(h) && Logs(h) && Proper(h, step) && s.limits.maxTracked > 0
    requires LogInv(log, h, s.cfg, before) && before <= step.now
    ensures LogInv(Logged(log, h, s, step), Next(h, s, step), s.cfg, step.now)
  {
    LogLater(log, h, s.cfg, before, step.now);
    match step.op
    case Ask(_, _, _) => AskLogs(log, h, s, step);
    case Submit(_, _, _, _) => SubmitLogs(log, h, s, step);
    case Exchange(_, _, _, _) => ExchangeLogs(log, h, s, step);
    case _ => OtherLogs(log, h, s, step);
  }

  // -------------------------------------------------------------------------- whole runs

  ghost function LogOf(log: Log, h: History, s: Server, steps: seq<Step>): Log
    requires s.limits.maxTracked > 0 && Run(h, s, steps)
    decreases |steps|
  {
    if steps == [] then log else LogOf(Logged(log, h, s, steps[0]), Next(h, s, steps[0]), s, steps[1..])
  }

  function Latest(steps: seq<Step>, before: real): real {
    if steps == [] then before else steps[|steps| - 1].now
  }

  lemma FirstLogs(log: Log, h: History, s: Server, steps: seq<Step>, before: real) returns (log': Log, h': History)
    requires s.limits.maxTracked > 0 && Tables(h) && Logs(h) && Run(h, s, steps) && Clocked(before, steps)
    requires LogInv(log, h, s.cfg, before) && steps != []
    ensures Tables(h') && Logs(h') && Run(h', s, steps[1..]) && Clocked(steps[0].now, steps[1..])
    ensures before <= steps[0].now && LogInv(log', h', s.cfg, steps[0].now)
    ensures End(h, s, steps) == End(h', s, steps[1..]) && LogOf(log, h, s, steps) == LogOf(log', h', s, steps[1..])
    ensures Latest(steps, before) == Latest(steps[1..], steps[0].now)
  {
    StepKeeps(h, s, steps[0]);
    StepLogs(log, h, s, steps[0], before);
    log', h' := Logged(log, h, s, steps[0]), Next(h, s, steps[0]);
  }

  lemma {:induction false} RunLogs(log: Log, h: History, s: Server, steps: seq<Step>, before: real)
    requires s.limits.maxTracked > 0 && Tables(h) && Logs(h) && Run(h, s, steps) && Clocked(before, steps)
    requires LogInv(log, h, s.cfg, before)
    ensures Tables(End(h, s, steps)) && Logs(End(h, s, steps)) && before <= Latest(steps, before)
    ensures LogInv(LogOf(log, h, s, steps), End(h, s, steps), s.cfg, Latest(steps, before))
    decreases |steps|
  {
    if steps != [] {
      var log', h' := FirstLogs(log, h, s, steps, before);
      RunLogs(log', h', s, steps[1..], steps[0].now);
    }
  }

  lemma CodeNow(log: Log, h: History, cfg: Config, client: string, code: string, now: real, at: string, rt: string)
    requires LogInv(log, h, cfg, now)
    ensures var (b, grant) := ExchangeCode(h.auth, cfg, client, code, now, at, rt);
      var good := code in log.minted && code !in log.presented && now <= log.minted[code].1 + cfg.codeTtl as real;
      && (code in log.minted ==> log.minted[code].0 in log.asked)
      && (grant.Issued? <==> good) && (!grant.Issued? ==> b.store == h.auth.store)
      && (good ==>
            var asked := log.asked[log.minted[code].0];
            && grant == Issued(at, rt, asked.1.scopes)
            && LoadCode(h.auth, client, code)
               == if client == asked.0 then Some(CodeFor(asked, cfg, log.minted[code].1)) else None)
  {
  }

  /** After every run, and until its expiry: a client can load a code iff the code was minted for
      a request of that client and no exchange has presented it; what it loads carries that
      request; and an exchange yields a pair iff the code was minted, was not presented before,
      and has not expired. */
  lemma CodeWorksExactly(s: Server, steps: seq<Step>, start: real, client: string, code: string, now: real,
                         at: string, rt: string)
    requires s.limits.maxTracked > 0 && Run(BEGIN, s, steps) && Clocked(start, steps) && Latest(steps, start) <= now
    ensures var h, log := End(BEGIN, s, steps), LogOf(NOTHING, BEGIN, s, steps);
      var (b, grant) := ExchangeCode(h.auth, s.cfg, client, code, now, at, rt);
      var good := code in log.minted && code !in log.presented && now <= log.minted[code].1 + s.cfg.codeTtl as real;
      && (code in log.minted ==> log.minted[code].0 in log.asked)
      && (grant.Issued? <==> good) && (!grant.Issued? ==> b.store == h.auth.store)
      && (good ==>
            var asked := log.asked[log.minted[code].0];
            && grant == Issued(at, rt, asked.1.scopes)
            && LoadCode(h.auth, client, code)
               == if client == asked.0 then Some(CodeFor(asked, s.cfg, log.minted[code].1)) else None)
  {
    RunLogs(NOTHING, BEGIN, s, steps, start);
    var h, log := End(BEGIN, s, steps), LogOf(NOTHING, BEGIN, s, steps);
    LogLater(log, h, s.cfg, Latest(steps, start), now);
    CodeNow(log, h, s.cfg, client, code, now, at, rt);
  }

  /** After every run: within a minute of the mint, the right password from an address that is
      not locked is answered with the very redirect of the first submission. */
  lemma RepliesAreRemembered(s: Server, steps: seq<Step>, start: real, code: string, ip: string, now: real,
                             unused: string)
    requires s.limits.maxTracked > 0 && Run(BEGIN, s, steps) && Clocked(start, steps) && Latest(steps, start) <= now
    requires var log := LogOf(NOTHING, BEGIN, s, steps); code in log.minted && now <= log.minted[code].1 + 60.0
    requires LockedFor(End(BEGIN, s, steps).auth.limiter, ip, now).1 <= 0.0
    ensures var h, log := End(BEGIN, s, steps), LogOf(NOTHING, BEGIN, s, steps);
      var txn := log.minted[code].0;
      && Sound(h.auth) && txn in log.asked
      && CompleteLogin(h.auth, s.cfg, s.limits, txn, s.cfg.operatorPassword, ip, now, unused).1
         == SentTo(Back(log.asked[txn], code))
  {
    var h, log := End(BEGIN, s, steps), LogOf(NOTHING, BEGIN, s, steps);
    RunLogs(NOTHING, BEGIN, s, steps, start);
    LogLater(log, h, s.cfg, Latest(steps, start), now);
    ReplayIsIdentical(h.auth, s.cfg, s.limits, log.minted[code].0, ip, now, unused);
  }

  // ---------------------------------------------------------------- one code among other steps

  /** A step that does not present the code leaves it, until it expires. */
  lemma StepSparesCode(h: History, s: Server, step: Step, code: string)
    requires Tables(h) && Proper(h, step) && s.limits.maxTracked > 0 && code in h.auth.codes
    requires step.now <= h.auth.codes[code].expiresAt && !(step.op.Exchange? && step.op.code == code)
    ensures var b := Next(h, s, step).auth; code in b.codes && b.codes[code] == h.auth.codes[code]
  {
    match step.op
    case Ask(client, params, txn) => AskThins(h.auth, s.cfg, client, params, step.now, txn);
    case Submit(_, _, _, _) => SubmitSparesCode(h.auth, s, step.op, step.now, code);
    case Enrol(id, redirects, rec) => EnrolThins(h.auth, s.cfg, s.maxClients, id, redirects, rec, step.now);
    case _ =>
  }

  lemma SubmitSparesCode(a: Auth, s: Server, op: Op, now: real, code: string)
    requires Sound(a) && op.Submit? && s.limits.maxTracked > 0 && code in a.codes && op.code != code
    requires now <= a.codes[code].expiresAt
    ensures var b := CompleteLogin(a, s.cfg, s.limits, op.txn, op.password, op.ip, now, op.code).0;
      code in b.codes && b.codes[code] == a.codes[code]
  {
    SubmitThins(a, s, op, now);
    if Approves(a, s, op, now) {
      PrunedThins(a, s, op.ip, now);
      MintStores(PrunedFor(a, s.cfg, op.ip, now), s.cfg, op.txn, op.ip, now, op.code);
    }
  }

  lemma {:induction false} CodeStays(h: History, s: Server, steps: seq<Step>, code: string)
    requires s.limits.maxTracked > 0 && Tables(h) && Logs(h) && Run(h, s, steps) && code in h.auth.codes
    requires forall step | step in steps ::
               step.now <= h.auth.codes[code].expiresAt && !(step.op.Exchange? && step.op.code == code)
    ensures var b := End(h, s, steps).auth; code in b.codes && b.codes[code] == h.auth.codes[code]
    decreases |steps|
  {
    if steps != [] {
      StepKeeps(h, s, steps[0]);
      StepSparesCode(h, s, steps[0], code);
      CodeStays(Next(h, s, steps[0]), s, steps[1..], code);
    }
  }

  lemma MintForgives(a: Auth, cfg: Config, txn: string, ip: string, now: real, code: string, other: string)
    requires Sound(a) && txn in a.pending.vals
    ensures var limiter := Mint(a, cfg, txn, ip, now, code).0.limiter;
      && ip !in limiter.ips.vals && limiter.globalFailures == 0
      && (other != ip ==>
            && (other in limiter.ips.vals <==> other in a.limiter.ips.vals)
            && (other in a.limiter.ips.vals ==> limiter.ips.vals[other] == a.limiter.ips.vals[other]))
  {
    PopOk(a.limiter.ips, ip);
  }

  lemma LookSpares(l: Limiter, ip: string, now: real, other: string)
    requires Ok(l.ips) && other != ip
    ensures var ips := LockedFor(l, ip, now).0.ips.vals;
      (other in ips <==> other in l.ips.vals) && (other in ips ==> ips[other] == l.ips.vals[other])
  {
    PopOk(l.ips, ip);
  }

  /** A login starts the limiter over for its own address, and leaves all others alone. */
  lemma SuccessForgives(a: Auth, s: Server, op: Op, now: real, other: string)
    requires Sound(a) && op.Submit? && s.limits.maxTracked > 0 && op.code !in a.codes
    requires op.code in CompleteLogin(a, s.cfg, s.limits, op.txn, op.password, op.ip, now, op.code).0.codes
    ensures var limiter := CompleteLogin(a, s.cfg, s.limits, op.txn, op.password, op.ip, now, op.code).0.limiter;
      var ips, ips' := a.limiter.ips.vals, limiter.ips.vals;
      && op.ip !in ips' && limiter.globalFailures == 0
      && (other != op.ip ==> (other in ips' <==> other in ips) && (other in ips ==> ips'[other] == ips[other]))
  {
    SubmitThins(a, s, op, now);
    PrunedThins(a, s, op.ip, now);
    MintForgives(PrunedFor(a, s.cfg, op.ip, now), s.cfg, op.txn, op.ip, now, op.code, other);
    if other != op.ip {
      LookSpares(a.limiter, op.ip, now, other);
    }
  }
}
