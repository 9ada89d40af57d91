/** Every token descends from one login. Over any run each login has at most one stored
    refresh token and one stored access token, none of them outlives the login's absolute
    lifetime, and no operation on one login's tokens touches another's. */
module TokenFamilies {
  import opened Text
  import opened StoreSpec
  import opened TokenSpec

  /** `family[d]`: the login a minted token descends from. `begun[f]`: when that login was.
      `lastA[f]`, `lastR[f]`: the pair minted last for it. */
  datatype History = History(
    store: Store, family: map<Digest, nat>, begun: seq<real>, lastA: map<nat, Digest>, lastR: map<nat, Digest>)

  const BEGIN := History(EMPTY_STORE, map[], [], map[], map[])

  datatype Op =
    | Login(client: string, scopes: seq<string>, at: string, rt: string)
    | Refresh(client: string, token: string, scopes: seq<string>, at: string, rt: string)
    | Verify(token: string)
    | RevokeA(token: string)
    | RevokeR(token: string)
    | PruneAll(clientTtl: real)
    | Register(id: string, rec: ClientRec, protected: set<string>, maxClients: nat)

  datatype Step = Step(now: real, op: Op)

  /** The random tokens of a step are new. */
  predicate Proper(h: History, step: Step) {
    && 0.0 <= step.now
    && (step.op.Login? || step.op.Refresh? ==>
          step.op.at != step.op.rt && DigestOf(step.op.at) !in h.family && DigestOf(step.op.rt) !in h.family)
  }

  /** The login a step acts on: the new one, or that of the presented token. */
  function Target(h: History, op: Op): Option<nat> {
    match op
    case Login(_, _, _, _) => Some(|h.begun|)
    case Refresh(_, token, _, _, _) => if DigestOf(token) in h.family then Some(h.family[DigestOf(token)]) else None
    case RevokeA(token) => if DigestOf(token) in h.family then Some(h.family[DigestOf(token)]) else None
    case RevokeR(token) => if DigestOf(token) in h.family then Some(h.family[DigestOf(token)]) else None
    case _ => None
  }

  function Apply(s: Store, cfg: Config, step: Step): Store {
    match step.op
    case Login(client, scopes, at, rt) => FirstIssue(s, cfg, client, scopes, step.now, at, rt)
    case Refresh(client, token, scopes, at, rt) => ExchangeRefresh(s, cfg, client, token, scopes, step.now, at, rt).0
    case Verify(token) => LoadAccess(s, cfg, token, step.now).0
    case RevokeA(token) => RevokeAccess(s, token)
    case RevokeR(token) => RevokeRefresh(s, token)
    case PruneAll(clientTtl) => Prune(s, step.now, clientTtl)
    case Register(id, rec, protected, maxClients) => PutClient(s, id, rec, protected, maxClients, step.now).0
  }

  /** The pair `at`, `rt` was minted for login `f`. */
  function Minted(h: History, s: Store, at: string, rt: string, f: nat): History {
    h.(store := s, family := h.family[DigestOf(at) := f][DigestOf(rt) := f],
       lastA := h.lastA[f := DigestOf(at)], lastR := h.lastR[f := DigestOf(rt)])
  }

  function Next(h: History, cfg: Config, step: Step): History {
    var s := Apply(h.store, cfg, step);
    match step.op
    case Login(_, _, at, rt) => Minted(h, s, at, rt, |h.begun|).(begun := h.begun + [step.now])
    case Refresh(client, token, scopes, at, rt) =>
      if ExchangeRefresh(h.store, cfg, client, token, scopes, step.now, at, rt).1.Issued? && DigestOf(token) in h.family
      then Minted(h, s, at, rt, h.family[DigestOf(token)])
      else h.(store := s)
    case _ => h.(store := s)
  }

  // --------------------------------------------------------------- what a pair is good for

  /** A pair works for its own client, with its scopes, for this server's audience, and until
      exactly its expiry. */
  lemma IssuedTokensWork(s: Store, cfg: Config, client: string, scopes: seq<string>, now: real, until: Option<real>,
                         absolute: Option<real>, at: string, rt: string, later: real,
                         who: string, asked: seq<string>, at': string, rt': string)
    ensures var t := IssueTokens(s, cfg, client, scopes, now, until, absolute, at, rt);
      var accessEnd, refreshEnd := Trunc(now + cfg.accessTtl as real), t.refresh[DigestOf(rt)].expiresAt.value;
      && LoadAccess(t, cfg, at, later).1
         == (if later <= accessEnd as real then Some(Bearer(client, scopes, Some(accessEnd), Some(cfg.audience)))
             else None)
      && ExchangeRefresh(t, cfg, who, rt, asked, later, at', rt').1
         == (if who != client then InvalidGrant(TokenNotValid)
             else if later <= refreshEnd then Issued(at', rt', if asked != [] then asked else scopes)
             else InvalidGrant(TokenExpired))
  {
    var accessEnd := Trunc(now + cfg.accessTtl as real);
    assert Trunc(accessEnd as real) == accessEnd;
  }

  // ------------------------------------------------------------------ the invariant

  /** Every token ever minted descends from a login that took place. */
  predicate Lineage(h: History) {
    && (forall d | d in h.family :: h.family[d] < |h.begun| && h.family[d] in h.lastA && h.family[d] in h.lastR)
    && (forall f | f in h.lastA :: h.lastA[f] in h.family && h.family[h.lastA[f]] == f)
    && (forall d | d in h.store.access :: d in h.family)
    && (forall d | d in h.store.refresh :: d in h.family)
  }

  /** Every stored token is the last of its kind of its login, and every stored refresh token
      points at the last access token of its login. */
  predicate Families(h: History) {
    && Lineage(h)
    && (forall d | d in h.store.access :: d == h.lastA[h.family[d]])
    && (forall d | d in h.store.refresh ::
          d == h.lastR[h.family[d]] && h.store.refresh[d].accessHash == Some(h.lastA[h.family[d]]))
  }

  /** The same tables, but for tokens that are gone. */
  predicate Fewer(s: Store, s': Store) {
    && (forall d | d in s'.access :: d in s.access && s'.access[d] == s.access[d])
    && (forall d | d in s'.refresh :: d in s.refresh && s'.refresh[d] == s.refresh[d])
  }

  /** Minting for a login whose other tokens are all gone. */
  lemma MintLineage(h: History, s': Store, at: string, rt: string, f: nat, begun: seq<real>)
    requires Lineage(h) && at != rt && DigestOf(at) !in h.family && DigestOf(rt) !in h.family
    requires f < |begun| && |h.begun| <= |begun|
    requires forall d | d in s'.access :: d in h.store.access || d == DigestOf(at)
    requires forall d | d in s'.refresh :: d in h.store.refresh || d == DigestOf(rt)
    ensures Lineage(Minted(h, s', at, rt, f).(begun := begun))
  {
  }

  /** A pair is minted for a login that has no tokens left. */
  lemma MintFamilies(h: History, cfg: Config, client: string, scopes: seq<string>, now: real,
                     until: Option<real>, at: string, rt: string, f: nat, begun: seq<real>)
    requires Families(h) && at != rt && DigestOf(at) !in h.family && DigestOf(rt) !in h.family
    requires f < |begun| && |h.begun| <= |begun|
    requires forall d | d in h.store.access :: h.family[d] != f
    requires forall d | d in h.store.refresh :: h.family[d] != f
    ensures var issued := IssueTokens(h.store, cfg, client, scopes, now, until, until, at, rt);
      Families(Minted(h, issued, at, rt, f).(begun := begun))
  {
    var s' := IssueTokens(h.store, cfg, client, scopes, now, until, until, at, rt);
    var h' := Minted(h, s', at, rt, f).(begun := begun);
    MintLineage(h, s', at, rt, f, begun);
    forall d | d in s'.access ensures d == h'.lastA[h'.family[d]] {
    }
    MintedRefresh(h, cfg, client, scopes, now, until, at, rt, f);
  }

  lemma MintedRefresh(h: History, cfg: Config, client: string, scopes: seq<string>, now: real,
                      until: Option<real>, at: string, rt: string, f: nat)
    requires Families(h) && at != rt && DigestOf(at) !in h.family && DigestOf(rt) !in h.family
    requires forall d | d in h.store.refresh :: h.family[d] != f
    ensures var s' := IssueTokens(h.store, cfg, client, scopes, now, until, until, at, rt);
      var h' := Minted(h, s', at, rt, f);
      forall d | d in s'.refresh ::
        && d in h'.family && h'.family[d] in h'.lastR && h'.family[d] in h'.lastA
        && d == h'.lastR[h'.family[d]] && s'.refresh[d].accessHash == Some(h'.lastA[h'.family[d]])
  {
  }

  lemma LoginFamilies(h: History, cfg: Config, step: Step)
    requires Families(h) && Proper(h, step) && step.op.Login?
    ensures Families(Next(h, cfg, step))
  {
    var op := step.op;
    MintFamilies(h, cfg, op.client, op.scopes, step.now, None, op.at, op.rt, |h.begun|, h.begun + [step.now]);
  }

  /** Popping a refresh token and deleting the access token it minted last leaves its login
      without any token. */
  lemma RotationClears(h: History, token: string)
    requires Families(h) && DigestOf(token) in h.store.refresh
    ensures DigestOf(token) in h.family
    ensures var s := RevokeLast(PopRefresh(h.store, token), h.store.refresh[DigestOf(token)]);
      && Fewer(h.store, s)
      && (forall d | d in s.access :: h.family[d] != h.family[DigestOf(token)])
      && (forall d | d in s.refresh :: h.family[d] != h.family[DigestOf(token)])
  {
  }

  lemma FewerFamilies(h: History, s': Store)
    requires Families(h) && Fewer(h.store, s')
    ensures Families(h.(store := s'))
  {
  }

  lemma RefreshFamilies(h: History, cfg: Config, step: Step)
    requires Families(h) && Proper(h, step) && step.op.Refresh?
    ensures Families(Next(h, cfg, step))
  {
    var op, popped := step.op, PopRefresh(h.store, step.op.token);
    FewerFamilies(h, popped);
    if ExchangeRefresh(h.store, cfg, op.client, op.token, op.scopes, step.now, op.at, op.rt).1.Issued? {
      RotationClears(h, op.token);
      var rec := h.store.refresh[DigestOf(op.token)];
      var cleared := RevokeLast(popped, rec);
      FewerFamilies(h, cleared);
      MintFamilies(h.(store := cleared), cfg, op.client, if op.scopes != [] then op.scopes else rec.scopes, step.now,
                   rec.absoluteExpiresAt, op.at, op.rt, h.family[DigestOf(op.token)], h.begun);
    }
  }

  /** Verifying, revoking, pruning and registering only take tokens away. */
  lemma OthersTakeAway(h: History, cfg: Config, step: Step)
    requires !step.op.Login? && !step.op.Refresh?
    ensures Fewer(h.store, Apply(h.store, cfg, step)) && Next(h, cfg, step) == h.(store := Apply(h.store, cfg, step))
  {
    match step.op
    case Verify(token) => VerifyTakesAway(h.store, cfg, token, step.now);
    case RevokeA(token) => RevocationTakesAway(h.store, token);
    case RevokeR(token) => RevocationTakesAway(h.store, token);
    case PruneAll(clientTtl) => PruneTakesAway(h.store, step.now, clientTtl);
    case Register(id, rec, protected, maxClients) =>
      RegisterKeepsTokens(h.store, id, rec, protected, maxClients, step.now);
  }

  lemma VerifyTakesAway(s: Store, cfg: Config, token: string, now: real)
    ensures Fewer(s, LoadAccess(s, cfg, token, now).0)
  {
  }

  lemma RevocationTakesAway(s: Store, token: string)
    ensures Fewer(s, RevokeAccess(s, token)) && Fewer(s, RevokeRefresh(s, token))
  {
  }

  lemma PruneTakesAway(s: Store, now: real, clientTtl: real)
    ensures Fewer(s, Prune(s, now, clientTtl))
  {
  }

  lemma RegisterKeepsTokens(s: Store, id: string, rec: ClientRec, protected: set<string>, maxClients: nat, now: real)
    ensures Fewer(s, PutClient(s, id, rec, protected, maxClients, now).0)
  {
  }

  lemma StepFamilies(h: History, cfg: Config, step: Step)
    requires Families(h) && Proper(h, step)
    ensures Families(Next(h, cfg, step))
  {
    if step.op.Login? {
      LoginFamilies(h, cfg, step);
    } else if step.op.Refresh? {
      RefreshFamilies(h, cfg, step);
    } else {
      OthersTakeAway(h, cfg, step);
      FewerFamilies(h, Apply(h.store, cfg, step));
    }
  }

  /** `d` is stored in `s'` exactly as in `s`. */
  predicate Same(s: Store, s': Store, d: Digest) {
    && (d in s.access <==> d in s'.access) && (d in s.access ==> s'.access[d] == s.access[d])
    && (d in s.refresh <==> d in s'.refresh) && (d in s.refresh ==> s'.refresh[d] == s.refresh[d])
  }

  lemma RotationSpares(s: Store, cfg: Config, op: Op, now: real, d: Digest)
    requires op.Refresh? && d !in {DigestOf(op.token), DigestOf(op.at), DigestOf(op.rt)}
    requires DigestOf(op.token) in s.refresh ==> s.refresh[DigestOf(op.token)].accessHash != Some(d)
    ensures Same(s, ExchangeRefresh(s, cfg, op.client, op.token, op.scopes, now, op.at, op.rt).0, d)
  {
  }

  lemma RevocationSpares(s: Store, token: string, d: Digest)
    requires d != DigestOf(token)
    ensures (DigestOf(token) in s.refresh ==> s.refresh[DigestOf(token)].accessHash != Some(d)) ==>
              Same(s, RevokeRefresh(s, token), d)
    ensures (d in s.refresh ==> s.refresh[d].accessHash != Some(DigestOf(token))) ==> Same(s, RevokeAccess(s, token), d)
  {
  }

  /** Logins, rotations and revocations leave every token of every other login alone. */
  lemma OthersUntouched(h: History, cfg: Config, step: Step, d: Digest)
    requires Families(h) && Proper(h, step) && d in h.family && Target(h, step.op) != Some(h.family[d])
    requires !step.op.Verify? && !step.op.PruneAll?
    ensures Same(h.store, Next(h, cfg, step).store, d)
  {
    var op := step.op;
    match op
    case Refresh(_, _, _, _, _) => RotationSpares(h.store, cfg, op, step.now, d);
    case RevokeA(token) => RevocationSpares(h.store, token, d);
    case RevokeR(token) => RevocationSpares(h.store, token, d);
    case _ =>
  }

  /** Verifying and pruning leave every token of every login alone, but for expired ones. */
  lemma OnlyExpiredGo(h: History, cfg: Config, step: Step, d: Digest)
    requires step.op.Verify? || step.op.PruneAll?
    ensures var s, s' := h.store, Next(h, cfg, step).store;
      && Fewer(s, s')
      && (d in s.access && d !in s'.access ==> Expired(s.access[d].expiresAt, step.now))
      && (d in s.refresh && d !in s'.refresh ==> Expired(s.refresh[d].expiresAt, step.now))
  {
    OthersTakeAway(h, cfg, step);
  }

  /** Revoking either token of a login that is still stored leaves the login with none. */
  lemma RevocationEndsLogin(h: History, cfg: Config, step: Step, d: Digest)
    requires Families(h) && d in h.family && Target(h, step.op) == Some(h.family[d])
    requires || (step.op.RevokeR? && DigestOf(step.op.token) in h.store.refresh)
             || (step.op.RevokeA? && DigestOf(step.op.token) in h.store.access)
    ensures d !in Next(h, cfg, step).store.access && d !in Next(h, cfg, step).store.refresh
  {
    if step.op.RevokeR? {
      RotationClears(h, step.op.token);
    }
  }

  // -------------------------------------------------------------- absolute lifetime

  /** When the refresh tokens of a login begun at `t0` expire: the same whole second, always. */
  function RefreshEnd(cfg: Config, t0: real): int {
    Trunc(t0 + cfg.refreshTtl as real)
  }

  predicate RefreshInLifetime(rec: RefreshRec, cfg: Config, t0: real) {
    && rec.absoluteExpiresAt == Some(t0 + cfg.refreshTtl as real)
    && rec.expiresAt == Some(RefreshEnd(cfg, t0) as real)
  }

  predicate AccessInLifetime(rec: AccessRec, cfg: Config, t0: real) {
    rec.expiresAt.Some? && rec.expiresAt.value <= (RefreshEnd(cfg, t0) + cfg.accessTtl) as real
  }

  predicate InLifetime(h: History, cfg: Config) {
    && Lineage(h)
    && (forall f | 0 <= f < |h.begun| :: 0.0 <= h.begun[f])
    && (forall d | d in h.store.refresh :: RefreshInLifetime(h.store.refresh[d], cfg, h.begun[h.family[d]]))
    && (forall d | d in h.store.access :: AccessInLifetime(h.store.access[d], cfg, h.begun[h.family[d]]))
  }

  lemma FirstSeconds(cfg: Config, now: real)
    requires 0.0 <= now
    ensures Trunc(now + cfg.accessTtl as real) <= RefreshEnd(cfg, now) + cfg.accessTtl
    ensures RefreshEnd(cfg, now) as real <= now + cfg.refreshTtl as real
  {
    assert (now + cfg.accessTtl as real).Floor == now.Floor + cfg.accessTtl;
  }

  lemma LaterSeconds(now: real, end: int, ttl: nat)
    requires 0.0 <= now <= end as real
    ensures Trunc(now + ttl as real) <= end + ttl
  {
  }

  lemma MintLifetimeOf(h: History, cfg: Config, s': Store, at: string, rt: string, f: nat, begun: seq<real>, d: Digest)
    requires InLifetime(h, cfg) && at != rt && DigestOf(at) !in h.family && DigestOf(rt) !in h.family
    requires f < |begun| && h.begun <= begun
    requires d in s'.access ==>
               if d == DigestOf(at) then AccessInLifetime(s'.access[d], cfg, begun[f])
               else d in h.store.access && s'.access[d] == h.store.access[d]
    requires d in s'.refresh ==>
               if d == DigestOf(rt) then RefreshInLifetime(s'.refresh[d], cfg, begun[f])
               else d in h.store.refresh && s'.refresh[d] == h.store.refresh[d]
    ensures var family := Minted(h, s', at, rt, f).family;
      && (d in s'.access ==> family[d] < |begun| && AccessInLifetime(s'.access[d], cfg, begun[family[d]]))
      && (d in s'.refresh ==> family[d] < |begun| && RefreshInLifetime(s'.refresh[d], cfg, begun[family[d]]))
  {
  }

  /** Minting keeps every token within the lifetime of its login if the new pair is. */
  lemma MintLifetime(h: History, cfg: Config, s': Store, at: string, rt: string, f: nat, begun: seq<real>)
    requires InLifetime(h, cfg) && at != rt && DigestOf(at) !in h.family && DigestOf(rt) !in h.family
    requires f < |begun| && h.begun <= begun && forall i | 0 <= i < |begun| :: 0.0 <= begun[i]
    requires forall d | d in s'.access && d != DigestOf(at) :: d in h.store.access && s'.access[d] == h.store.access[d]
    requires forall d | d in s'.refresh && d != DigestOf(rt) ::
               d in h.store.refresh && s'.refresh[d] == h.store.refresh[d]
    requires DigestOf(at) in s'.access ==> AccessInLifetime(s'.access[DigestOf(at)], cfg, begun[f])
    requires DigestOf(rt) in s'.refresh ==> RefreshInLifetime(s'.refresh[DigestOf(rt)], cfg, begun[f])
    ensures InLifetime(Minted(h, s', at, rt, f).(begun := begun), cfg)
  {
    MintLineage(h, s', at, rt, f, begun);
    forall d | d in s'.access || d in s'.refresh
      ensures var family := Minted(h, s', at, rt, f).family;
        && (d in s'.access ==> AccessInLifetime(s'.access[d], cfg, begun[family[d]]))
        && (d in s'.refresh ==> RefreshInLifetime(s'.refresh[d], cfg, begun[family[d]]))
    {
      MintLifetimeOf(h, cfg, s', at, rt, f, begun, d);
    }
  }

  lemma LoginLifetime(h: History, cfg: Config, step: Step)
    requires InLifetime(h, cfg) && Proper(h, step) && step.op.Login?
    ensures InLifetime(Next(h, cfg, step), cfg)
  {
    FirstSeconds(cfg, step.now);
    var op := step.op;
    MintLifetime(h, cfg, Apply(h.store, cfg, step), op.at, op.rt, |h.begun|, h.begun + [step.now]);
  }

  lemma FewerLifetime(h: History, cfg: Config, s': Store)
    requires InLifetime(h, cfg) && Fewer(h.store, s')
    ensures InLifetime(h.(store := s'), cfg)
  {
  }

  /** A rotation happens by the end of the refresh lifetime, and passes that end on. */
  lemma RotationRecords(s: Store, cfg: Config, op: Op, now: real, t0: real)
    requires op.Refresh? && op.at != op.rt && 0.0 <= now
    requires ExchangeRefresh(s, cfg, op.client, op.token, op.scopes, now, op.at, op.rt).1.Issued?
    requires RefreshInLifetime(s.refresh[DigestOf(op.token)], cfg, t0)
    ensures var s' := ExchangeRefresh(s, cfg, op.client, op.token, op.scopes, now, op.at, op.rt).0;
      && (forall d | d in s'.access && d != DigestOf(op.at) :: d in s.access && s'.access[d] == s.access[d])
      && (forall d | d in s'.refresh && d != DigestOf(op.rt) :: d in s.refresh && s'.refresh[d] == s.refresh[d])
      && DigestOf(op.at) in s'.access && AccessInLifetime(s'.access[DigestOf(op.at)], cfg, t0)
      && DigestOf(op.rt) in s'.refresh && RefreshInLifetime(s'.refresh[DigestOf(op.rt)], cfg, t0)
  {
    LaterSeconds(now, RefreshEnd(cfg, t0), cfg.accessTtl);
  }

  lemma RefreshLifetime(h: History, cfg: Config, step: Step)
    requires InLifetime(h, cfg) && Proper(h, step) && step.op.Refresh?
    ensures InLifetime(Next(h, cfg, step), cfg)
  {
    var op, s := step.op, h.store;
    if ExchangeRefresh(s, cfg, op.client, op.token, op.scopes, step.now, op.at, op.rt).1.Issued? {
      var f := h.family[DigestOf(op.token)];
      RotationRecords(s, cfg, op, step.now, h.begun[f]);
      MintLifetime(h, cfg, Apply(s, cfg, step), op.at, op.rt, f, h.begun);
    } else {
      FewerLifetime(h, cfg, PopRefresh(s, op.token));
    }
  }

  lemma StepLifetime(h: History, cfg: Config, step: Step)
    requires InLifetime(h, cfg) && Proper(h, step)
    ensures InLifetime(Next(h, cfg, step), cfg)
  {
    if step.op.Login? {
      LoginLifetime(h, cfg, step);
    } else if step.op.Refresh? {
      RefreshLifetime(h, cfg, step);
    } else {
      OthersTakeAway(h, cfg, step);
    }
  }

  // --------------------------------------------------------------------------- runs

  ghost predicate Run(h: History, cfg: Config, steps: seq<Step>)
    decreases |steps|
  {
    steps == [] || (Proper(h, steps[0]) && Run(Next(h, cfg, steps[0]), cfg, steps[1..]))
  }

  function End(h: History, cfg: Config, steps: seq<Step>): History
    decreases |steps|
  {
    if steps == [] then h else End(Next(h, cfg, steps[0]), cfg, steps[1..])
  }

  /** A refresh token that is gone stays gone. */
  lemma {:induction false} GoneForGood(h: History, cfg: Config, steps: seq<Step>, d: Digest)
    requires Run(h, cfg, steps) && d in h.family && d !in h.store.refresh
    ensures d in End(h, cfg, steps).family && d !in End(h, cfg, steps).store.refresh
    decreases |steps|
  {
    if steps != [] {
      if !steps[0].op.Login? && !steps[0].op.Refresh? {
        OthersTakeAway(h, cfg, steps[0]);
      }
      GoneForGood(Next(h, cfg, steps[0]), cfg, steps[1..], d);
    }
  }

  /** A refresh token is good for one exchange: whatever came of it, and whatever happens
      afterwards, presenting the token again is refused. */
  lemma RefreshTokensRotate(h: History, cfg: Config, step: Step, steps: seq<Step>, client: string, scopes: seq<string>,
                            now: real, at: string, rt: string)
    requires Lineage(h) && Proper(h, step) && step.op.Refresh? && DigestOf(step.op.token) in h.family
    requires Run(Next(h, cfg, step), cfg, steps)
    ensures ExchangeRefresh(End(Next(h, cfg, step), cfg, steps).store, cfg, client, step.op.token, scopes, now,
                            at, rt).1
         == InvalidGrant(TokenNotValid)
  {
    GoneForGood(Next(h, cfg, step), cfg, steps, DigestOf(step.op.token));
  }

  lemma {:induction false} RunKeeps(h: History, cfg: Config, steps: seq<Step>)
    requires Families(h) && InLifetime(h, cfg) && Run(h, cfg, steps)
    ensures Families(End(h, cfg, steps)) && InLifetime(End(h, cfg, steps), cfg)
    decreases |steps|
  {
    if steps != [] {
      StepFamilies(h, cfg, steps[0]);
      StepLifetime(h, cfg, steps[0]);
      RunKeeps(Next(h, cfg, steps[0]), cfg, steps[1..]);
    }
  }

  /** Over any run each login has at most one stored refresh token and at most one stored
      access token. */
  lemma OnePairPerLogin(cfg: Config, steps: seq<Step>)
    requires Run(BEGIN, cfg, steps)
    ensures var h := End(BEGIN, cfg, steps);
      && (forall d | d in h.store.access || d in h.store.refresh :: d in h.family)
      && (forall d, e | d in h.store.access && e in h.store.access && h.family[d] == h.family[e] :: d == e)
      && (forall d, e | d in h.store.refresh && e in h.store.refresh && h.family[d] == h.family[e] :: d == e)
  {
    RunKeeps(BEGIN, cfg, steps);
    var h := End(BEGIN, cfg, steps);
  }

  /** However often a login is refreshed, its tokens end with it: refresh tokens within
      `refreshTtl`, access tokens within `accessTtl` of that. */
  lemma AbsoluteLifetime(cfg: Config, steps: seq<Step>, d: Digest)
    requires Run(BEGIN, cfg, steps)
    ensures var h := End(BEGIN, cfg, steps);
      && (d in h.store.refresh ==>
            && d in h.family && h.family[d] < |h.begun| && h.store.refresh[d].expiresAt.Some?
            && h.store.refresh[d].expiresAt.value <= h.begun[h.family[d]] + cfg.refreshTtl as real)
      && (d in h.store.access ==>
            && d in h.family && h.family[d] < |h.begun| && h.store.access[d].expiresAt.Some?
            && h.store.access[d].expiresAt.value <= h.begun[h.family[d]] + cfg.refreshTtl as real
                                                  + cfg.accessTtl as real)
  {
    RunKeeps(BEGIN, cfg, steps);
    var h := End(BEGIN, cfg, steps);
    if d in h.family {
      FirstSeconds(cfg, h.begun[h.family[d]]);
    }
  }
}
