/** Parked authorizations, the operator login that turns one into a single-use code, and the
    exchange of that code for a login's first token pair. */
module LoginSpec {
  import opened Text
  import opened PyDict
  import opened LimiterSpec
  import opened StoreSpec
  import opened TokenSpec

  datatype Pending = Pending(
    clientId: string, redirectUri: string, explicit: bool, challenge: string,
    scopes: seq<string>, state: Option<string>, resource: Option<string>, createdAt: real)

  /** Where the browser is sent: the client's redirect URI with the code and state as parameters. */
  datatype Redirect = Redirect(uri: string, code: string, state: Option<string>)

  datatype Completed = Completed(redirect: Redirect, expiresAt: real)

  datatype Code = Code(
    scopes: seq<string>, expiresAt: real, clientId: string, challenge: string,
    redirectUri: string, explicit: bool, resource: Option<string>)

  datatype Auth = Auth(
    pending: Dict<string, Pending>,
    completed: map<string, Completed>,
    codes: map<string, Code>,
    limiter: Limiter,
    store: Store)

  const MAX_PENDING := 64
  const COMPLETED_LOGIN_TTL := 60.0

  ghost predicate Sound(a: Auth) {
    Ok(a.pending) && Ok(a.limiter.ips) && Ok(a.store.clients)
  }

  // ------------------------------------------------------------------------ parking

  /** The transactions that have not outlived their TTL. */
  function Fresh(pending: Dict<string, Pending>, ttl: nat, now: real): set<string> {
    set t | t in pending.vals && now <= pending.vals[t].createdAt + ttl as real
  }

  function PrunePending(a: Auth, cfg: Config, now: real): Auth {
    a.(pending := Restrict(a.pending, Fresh(a.pending, cfg.pendingTtl, now)),
       completed := map t | t in a.completed && now <= a.completed[t].expiresAt :: a.completed[t],
       codes := map c | c in a.codes && now <= a.codes[c].expiresAt :: a.codes[c])
  }

  function CreationTimes(pending: Dict<string, Pending>): map<string, real> {
    map t | t in pending.vals :: pending.vals[t].createdAt
  }

  /** Evict the oldest parked transaction until there is room for one more. */
  function MakeRoom(pending: Dict<string, Pending>): Dict<string, Pending>
    requires Ok(pending)
    decreases |pending.keys|
  {
    if |pending.keys| < MAX_PENDING then pending
    else
      var oldest := pending.keys[FirstMin(pending.keys, CreationTimes(pending))];
      PopShrinks(pending, oldest);
      MakeRoom(Pop(pending, oldest))
  }

  datatype Params = Params(
    redirectUri: string, explicit: bool, challenge: string,
    scopes: seq<string>, state: Option<string>, resource: Option<string>)

  datatype Refusal = AccessDenied | InvalidTarget | InvalidRequest

  datatype Parking = Parked(txn: string) | Refused(error: Refusal)

  predicate ResourceOk(cfg: Config, resource: Option<string>) {
    resource.None? || resource.value in {cfg.audience, cfg.issuer}
  }

  function Refusing(cfg: Config, p: Params): Option<Refusal> {
    if p.redirectUri !in cfg.redirects then Some(AccessDenied)
    else if !ResourceOk(cfg, p.resource) then Some(InvalidTarget)
    else if p.challenge == "" then Some(InvalidRequest)
    else None
  }

  function Park(client: string, p: Params, now: real): Pending {
    Pending(client, p.redirectUri, p.explicit, p.challenge, p.scopes, p.state, p.resource, now)
  }

  /** An acceptable request is parked under the new random identifier `txn`. */
  function Authorize(a: Auth, cfg: Config, client: string, p: Params, now: real, txn: string): (Auth, Parking)
    requires Sound(a)
  {
    var refusal := Refusing(cfg, p);
    if refusal.Some? then (a, Refused(refusal.value))
    else
      var pruned := PrunePending(a, cfg, now);
      RestrictOk(a.pending, Fresh(a.pending, cfg.pendingTtl, now));
      (pruned.(pending := Put(MakeRoom(pruned.pending), txn, Park(client, p, now))), Parked(txn))
  }

  // -------------------------------------------------------------------------- login

  datatype Login = SentTo(redirect: Redirect) | Locked(remaining: real) | LinkExpired | Rejected

  function CodeOf(p: Pending, cfg: Config, now: real): Code {
    Code(p.scopes, now + cfg.codeTtl as real, p.clientId, p.challenge, p.redirectUri, p.explicit, p.resource)
  }

  /** The operator submits a password for a parked transaction; `code` is a new random code. */
  function CompleteLogin(a: Auth, cfg: Config, limits: Limits, txn: string, password: string, ip: string,
                         now: real, code: string): (Auth, Login)
    requires Sound(a) && limits.maxTracked > 0
  {
    var (limiter, remaining) := LockedFor(a.limiter, ip, now);
    StepsOk(a.limiter, ip, limits, now);
    PruneSound(a.(limiter := limiter), cfg, now);
    if remaining > 0.0 then (a.(limiter := limiter), Locked(remaining))
    else Judge(PrunePending(a.(limiter := limiter), cfg, now), cfg, limits, txn, password, ip, now, code)
  }

  /** The verdict on a submission from an address that is not locked. */
  function Judge(a: Auth, cfg: Config, limits: Limits, txn: string, password: string, ip: string,
                 now: real, code: string): (Auth, Login)
    requires Sound(a) && limits.maxTracked > 0
  {
    var right := password == cfg.operatorPassword;
    if txn in a.pending.vals && right then Mint(a, cfg, txn, ip, now, code)
    else if txn in a.completed && txn !in a.pending.vals && right then (a, SentTo(a.completed[txn].redirect))
    else
      (if txn in a.pending.vals || txn in a.completed
       then a.(limiter := RecordFailure(a.limiter, ip, limits, now))
       else a,
       if txn in a.pending.vals then Rejected else LinkExpired)
  }

  function Mint(a: Auth, cfg: Config, txn: string, ip: string, now: real, code: string): (Auth, Login)
    requires txn in a.pending.vals
  {
    var p := a.pending.vals[txn];
    var redirect := Redirect(p.redirectUri, code, p.state);
    (a.(limiter := RecordSuccess(a.limiter, ip), pending := Pop(a.pending, txn),
        codes := a.codes[code := CodeOf(p, cfg, now)],
        completed := a.completed[txn := Completed(redirect, now + COMPLETED_LOGIN_TTL)]),
     SentTo(redirect))
  }

  // -------------------------------------------------------------------------- codes

  function LoadCode(a: Auth, client: string, code: string): Option<Code> {
    if code in a.codes && a.codes[code].clientId == client then Some(a.codes[code]) else None
  }

  /** Single use: the code is gone whatever comes of the exchange. */
  function ExchangeCode(a: Auth, cfg: Config, client: string, code: string, now: real, at: string, rt: string)
    : (Auth, Grant)
  {
    var popped := a.(codes := a.codes - {code});
    if code !in a.codes then (popped, InvalidGrant(CodeUsed))
    else if a.codes[code].expiresAt < now then (popped, InvalidGrant(CodeExpired))
    else
      var scopes := a.codes[code].scopes;
      (popped.(store := FirstIssue(a.store, cfg, client, scopes, now, at, rt)), Issued(at, rt, scopes))
  }

  // ------------------------------------------------------------------- registration

  datatype Registration = Registered | NoRedirect | RedirectRefused | LimitReached

  function PendingClients(a: Auth): set<string> {
    set t | t in a.pending.vals :: a.pending.vals[t].clientId
  }

  /** The record as a public client: no secret, and no authentication at the token endpoint. */
  function Public(rec: ClientRec): ClientRec {
    rec.(authMethod := "none", secret := None)
  }

  /** Registering may cost another client its place, but hardly one that waits for approval. */
  function RegisterClient(a: Auth, cfg: Config, maxClients: nat, id: string, redirects: seq<string>, rec: ClientRec,
                          now: real): (Auth, Registration)
  {
    if redirects == [] then (a, NoRedirect)
    else if exists u | u in redirects :: u !in cfg.redirects then (a, RedirectRefused)
    else
      var b := PrunePending(a, cfg, now);
      var (store, stored) := PutClient(b.store, id, Public(rec), PendingClients(b), maxClients, now);
      (b.(store := store), if stored then Registered else LimitReached)
  }

  // ---------------------------------------------------------------- well-formedness

  lemma {:induction false} RoomMade(pending: Dict<string, Pending>)
    requires Ok(pending)
    ensures Ok(MakeRoom(pending)) && |MakeRoom(pending).keys| < MAX_PENDING
    ensures forall t | t in MakeRoom(pending).vals :: t in pending.vals && MakeRoom(pending).vals[t] == pending.vals[t]
    decreases |pending.keys|
  {
    if |pending.keys| >= MAX_PENDING {
      var oldest := pending.keys[FirstMin(pending.keys, CreationTimes(pending))];
      PopShrinks(pending, oldest);
      RoomMade(Pop(pending, oldest));
    }
  }

  lemma PruneSound(a: Auth, cfg: Config, now: real)
    requires Sound(a)
    ensures Sound(PrunePending(a, cfg, now))
  {
    RestrictOk(a.pending, Fresh(a.pending, cfg.pendingTtl, now));
  }
}
