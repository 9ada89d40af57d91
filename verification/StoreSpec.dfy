/** What each operation does to the clients and tokens the OAuth store holds. */
module StoreSpec {
  import opened Text
  import opened PyDict

  /** A SHA-256 digest, as an injective function of the token it was made from. */
  datatype Digest = DigestOf(token: string)

  /** `client_id_issued_at` of a registration: missing, unusable as a number, or a number. */
  datatype IssuedAt = Missing | Unreadable | At(seconds: real)

  datatype ClientRec = ClientRec(issuedAt: IssuedAt, authMethod: string, secret: Option<string>, metadata: string)

  datatype AccessRec = AccessRec(
    clientId: string, scopes: seq<string>, expiresAt: Option<real>, resource: Option<string>)

  datatype RefreshRec = RefreshRec(
    clientId: string, scopes: seq<string>, expiresAt: Option<real>, absoluteExpiresAt: Option<real>,
    resource: Option<string>, accessHash: Option<Digest>)

  datatype Store = Store(
    clients: Dict<string, ClientRec>,
    access: map<Digest, AccessRec>,
    refresh: map<Digest, RefreshRec>)

  const EMPTY_STORE := Store(Empty(), map[], map[])

  /** `int(x)`: truncation towards zero. */
  function Trunc(x: real): int {
    if x >= 0.0 then x.Floor else -((-x).Floor)
  }

  predicate Expired(expiresAt: Option<real>, now: real) {
    expiresAt.Some? && expiresAt.value < now
  }

  // ------------------------------------------------------------------------ clients

  /** The clients that hold a token. */
  function Holders(s: Store): set<string> {
    (set d | d in s.access :: s.access[d].clientId) + (set d | d in s.refresh :: s.refresh[d].clientId)
  }

  function IssuedSeconds(rec: ClientRec): real {
    if rec.issuedAt.At? then rec.issuedAt.seconds else 0.0
  }

  function IssueTimes(clients: Dict<string, ClientRec>): map<string, real> {
    map c | c in clients.vals :: IssuedSeconds(clients.vals[c])
  }

  /** The registrations that hold no token, in order of registration. */
  function Idle(s: Store): seq<string> {
    Among(s.clients.keys, s.clients.vals.Keys - Holders(s))
  }

  /** Those of them an eviction may take: the unprotected ones, unless there are none. */
  function Evictable(s: Store, protected: set<string>): (r: seq<string>)
    ensures forall c | c in r :: c in s.clients.vals
  {
    var preferred := Among(Idle(s), s.clients.vals.Keys - protected);
    if preferred != [] then preferred else Idle(s)
  }

  function EvictOne(s: Store, protected: set<string>): (Store, bool) {
    var candidates := Evictable(s, protected);
    if candidates == [] then (s, false)
    else (s.(clients := Pop(s.clients, candidates[FirstMin(candidates, IssueTimes(s.clients))])), true)
  }

  function Dated(rec: ClientRec, now: real): ClientRec {
    if rec.issuedAt.Missing? then rec.(issuedAt := At(Trunc(now) as real)) else rec
  }

  function PutClient(s: Store, id: string, rec: ClientRec, protected: set<string>, maxClients: nat, now: real)
    : (Store, bool)
  {
    if id !in s.clients.vals && |s.clients.keys| >= maxClients then
      var (t, evicted) := EvictOne(s, protected);
      if evicted then (t.(clients := Put(t.clients, id, Dated(rec, now))), true) else (s, false)
    else (s.(clients := Put(s.clients, id, Dated(rec, now))), true)
  }

  // ------------------------------------------------------------------------- tokens

  function FindAccess(s: Store, token: string): Option<AccessRec> {
    if DigestOf(token) in s.access then Some(s.access[DigestOf(token)]) else None
  }

  function FindRefresh(s: Store, token: string): Option<RefreshRec> {
    if DigestOf(token) in s.refresh then Some(s.refresh[DigestOf(token)]) else None
  }

  function PutAccess(s: Store, token: string, rec: AccessRec): Store {
    s.(access := s.access[DigestOf(token) := rec])
  }

  function PutRefresh(s: Store, token: string, rec: RefreshRec): Store {
    s.(refresh := s.refresh[DigestOf(token) := rec])
  }

  function DeleteAccess(s: Store, digest: Digest): Store {
    s.(access := s.access - {digest})
  }

  function PopRefresh(s: Store, token: string): Store {
    s.(refresh := s.refresh - {DigestOf(token)})
  }

  /** Without the refresh tokens whose latest pair contains this access token. */
  function DeleteRefreshFor(s: Store, digest: Digest): Store {
    s.(refresh := map d | d in s.refresh && s.refresh[d].accessHash != Some(digest) :: s.refresh[d])
  }

  // -------------------------------------------------------------------- maintenance

  function PruneTokens(s: Store, now: real): Store {
    s.(access := map d | d in s.access && !Expired(s.access[d].expiresAt, now) :: s.access[d],
       refresh := map d | d in s.refresh && !Expired(s.refresh[d].expiresAt, now) :: s.refresh[d])
  }

  /** Tokenless registrations older than the TTL. */
  function Abandoned(s: Store, now: real, clientTtl: real): set<string> {
    set c | c in s.clients.vals && c !in Holders(s) && IssuedSeconds(s.clients.vals[c]) + clientTtl < now
  }

  function PruneClients(s: Store, now: real, clientTtl: real): Store {
    s.(clients := Restrict(s.clients, s.clients.vals.Keys - Abandoned(s, now, clientTtl)))
  }

  function Prune(s: Store, now: real, clientTtl: real): Store {
    PruneClients(PruneTokens(s, now), now, clientTtl)
  }
}
