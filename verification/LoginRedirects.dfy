/** Which authorization requests are accepted, and where a browser is ever sent: only to redirect
    URIs of the configured allowlist. */
module LoginRedirects {
  import opened Text
  import opened LimiterSpec
  import opened TokenSpec
  import opened LoginSpec
  import opened LoginRuns

  /** A request is parked, as it was made, iff its redirect URI is in the allowlist, its resource
      is missing or one of this server's own two URLs, and it has a challenge. Otherwise nothing
      changes, and the first of the three reasons that applies is reported. */
  lemma ParksExactly(a: Auth, cfg: Config, client: string, p: Params, now: real, txn: string)
    requires Sound(a)
    ensures var (b, r) := Authorize(a, cfg, client, p, now, txn);
      var allowed, challenged := p.redirectUri in cfg.redirects, p.challenge != "";
      var ours := p.resource.None? || p.resource == Some(cfg.audience) || p.resource == Some(cfg.issuer);
      && (allowed && ours && challenged ==>
            && r == Parked(txn) && txn in b.pending.vals
            && b.pending.vals[txn]
               == Pending(client, p.redirectUri, p.explicit, p.challenge, p.scopes, p.state, p.resource, now))
      && (!(allowed && ours && challenged) ==>
            b == a && r == Refused(if !allowed then AccessDenied else if !ours then InvalidTarget else InvalidRequest))
  {
    AuthorizeParks(a, cfg, client, p, now, txn);
  }

  /** Every redirect URI the server remembers is in the allowlist. */
  predicate Allowed(a: Auth, uris: set<string>) {
    && (forall t | t in a.pending.vals :: a.pending.vals[t].redirectUri in uris)
    && (forall t | t in a.completed :: a.completed[t].redirect.uri in uris)
    && (forall c | c in a.codes :: a.codes[c].redirectUri in uris)
  }

  lemma NoNewsAllowed(a: Auth, b: Auth, uris: set<string>)
    requires Allowed(a, uris) && NoNews(a, b)
    ensures Allowed(b, uris)
  {
  }

  lemma AskAllowed(a: Auth, cfg: Config, client: string, p: Params, now: real, txn: string)
    requires Sound(a) && Allowed(a, cfg.redirects)
    ensures Allowed(Authorize(a, cfg, client, p, now, txn).0, cfg.redirects)
  {
    ParksExactly(a, cfg, client, p, now, txn);
    AuthorizeParks(a, cfg, client, p, now, txn);
    if Authorize(a, cfg, client, p, now, txn).1.Parked? {
      PruneIsNoNews(a, cfg, now);
      assert Authorize(a, cfg, client, p, now, txn).0.codes == PrunePending(a, cfg, now).codes;
    }
  }

  lemma SubmitAllowed(a: Auth, s: Server, op: Op, now: real)
    requires Sound(a) && op.Submit? && s.limits.maxTracked > 0 && Allowed(a, s.cfg.redirects)
    ensures var (b, login) := CompleteLogin(a, s.cfg, s.limits, op.txn, op.password, op.ip, now, op.code);
      Allowed(b, s.cfg.redirects) && (login.SentTo? ==> login.redirect.uri in s.cfg.redirects)
  {
    UnlockedSound(a, s.cfg, s.limits, op.ip, now);
    var b := PrunePending(a.(limiter := LockedFor(a.limiter, op.ip, now).0), s.cfg, now);
    NoNewsAllowed(a, b, s.cfg.redirects);
    if op.txn in b.pending.vals && op.password == s.cfg.operatorPassword {
      MintAllowed(b, s.cfg, op.txn, op.ip, now, op.code);
    } else {
      NothingMinted(b, s.cfg, s.limits, op.txn, op.password, op.ip, now, op.code);
    }
  }

  lemma MintAllowed(a: Auth, cfg: Config, txn: string, ip: string, now: real, code: string)
    requires txn in a.pending.vals && Allowed(a, cfg.redirects)
    ensures Allowed(Mint(a, cfg, txn, ip, now, code).0, cfg.redirects)
    ensures Mint(a, cfg, txn, ip, now, code).1.redirect.uri in cfg.redirects
  {
  }

  ghost predicate Answered(h: History, uris: set<string>) {
    && Allowed(h.auth, uris)
    && (forall x | x in h.answers :: x.1.uri in uris)
  }

  lemma StepAllowed(h: History, s: Server, step: Step)
    requires Tables(h) && Proper(h, step) && s.limits.maxTracked > 0 && Answered(h, s.cfg.redirects)
    ensures Answered(Next(h, s, step), s.cfg.redirects)
  {
    var now := step.now;
    match step.op
    case Ask(client, params, txn) => AskAllowed(h.auth, s.cfg, client, params, now, txn);
    case Submit(_, _, _, _) => SubmitAllowed(h.auth, s, step.op, now);
    case Enrol(id, redirects, rec) =>
      EnrolIsNoNews(h.auth, s.cfg, s.maxClients, id, redirects, rec, now);
      NoNewsAllowed(h.auth, Next(h, s, step).auth, s.cfg.redirects);
    case Sweep =>
      PruneIsNoNews(h.auth, s.cfg, now);
      NoNewsAllowed(h.auth, Next(h, s, step).auth, s.cfg.redirects);
    case _ =>
  }

  lemma {:induction false} RunAllowed(h: History, s: Server, steps: seq<Step>)
    requires s.limits.maxTracked > 0 && Tables(h) && Logs(h) && Run(h, s, steps) && Answered(h, s.cfg.redirects)
    ensures Answered(End(h, s, steps), s.cfg.redirects)
    decreases |steps|
  {
    if steps != [] {
      StepKeeps(h, s, steps[0]);
      StepAllowed(h, s, steps[0]);
      RunAllowed(Next(h, s, steps[0]), s, steps[1..]);
    }
  }

  /** Over every run: whatever is parked, stored with a code, remembered for a replay or answered
      to a browser names a redirect URI of the allowlist. */
  lemma OnlyAllowedRedirects(s: Server, steps: seq<Step>)
    requires s.limits.maxTracked > 0 && Run(BEGIN, s, steps)
    ensures var h := End(BEGIN, s, steps);
      && (forall t | t in h.auth.pending.vals :: h.auth.pending.vals[t].redirectUri in s.cfg.redirects)
      && (forall c | c in h.auth.codes :: h.auth.codes[c].redirectUri in s.cfg.redirects)
      && (forall t | t in h.auth.completed :: h.auth.completed[t].redirect.uri in s.cfg.redirects)
      && (forall i | 0 <= i < |h.answers| :: h.answers[i].1.uri in s.cfg.redirects)
  {
    RunAllowed(BEGIN, s, steps);
  }
}
