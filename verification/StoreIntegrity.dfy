/** The client store stays bounded, and no token ever outlives its client's registration. */
module StoreIntegrity {
  import opened Text
  import opened PyDict
  import opened StoreSpec

  predicate Registered(s: Store) {
    forall c | c in Holders(s) :: c in s.clients.vals
  }

  ghost predicate Integrity(s: Store, maxClients: nat) {
    Ok(s.clients) && |s.clients.keys| <= maxClients && Registered(s)
  }

  /** A look-up finds what was put last under that very token, until it is deleted or, once
      expired, pruned; and nothing that happens to other tokens changes what it finds. */
  lemma AccessLookups(s: Store, token: string, rec: AccessRec, refreshRec: RefreshRec, other: string, now: real,
                      clientTtl: real)
    ensures FindAccess(PutAccess(s, token, rec), other) == if other == token then Some(rec) else FindAccess(s, other)
    ensures FindAccess(DeleteAccess(s, DigestOf(token)), other) == if other == token then None else FindAccess(s, other)
    ensures FindAccess(PutRefresh(s, token, refreshRec), other) == FindAccess(PopRefresh(s, token), other)
         == FindAccess(s, other)
    ensures FindAccess(Prune(s, now, clientTtl), other)
         == if FindAccess(s, other).Some? && Expired(FindAccess(s, other).value.expiresAt, now) then None
            else FindAccess(s, other)
  {
  }

  /** The same for refresh tokens, which also go when the access token they minted is revoked. */
  lemma RefreshLookups(s: Store, token: string, rec: RefreshRec, accessRec: AccessRec, other: string, now: real,
                       clientTtl: real)
    ensures FindRefresh(PutRefresh(s, token, rec), other) == if other == token then Some(rec) else FindRefresh(s, other)
    ensures FindRefresh(PopRefresh(s, token), other) == if other == token then None else FindRefresh(s, other)
    ensures FindRefresh(PutAccess(s, token, accessRec), other) == FindRefresh(DeleteAccess(s, DigestOf(token)), other)
         == FindRefresh(s, other)
    ensures var before := FindRefresh(s, other);
      && FindRefresh(DeleteRefreshFor(s, DigestOf(token)), other)
         == (if before.Some? && before.value.accessHash == Some(DigestOf(token)) then None else before)
      && FindRefresh(Prune(s, now, clientTtl), other)
         == (if before.Some? && Expired(before.value.expiresAt, now) then None else before)
  {
  }

  /** Registration fails exactly when a new client meets a full store in which every stored
      client holds a token; then nothing changes. */
  lemma PutClientFails(s: Store, id: string, rec: ClientRec, protected: set<string>, maxClients: nat, now: real)
    requires Ok(s.clients)
    ensures var (t, stored) := PutClient(s, id, rec, protected, maxClients, now);
      && (!stored <==> id !in s.clients.vals && |s.clients.keys| >= maxClients
                       && forall c | c in s.clients.vals :: c in Holders(s))
      && (!stored ==> t == s)
  {
    if Idle(s) == [] {
      forall c | c in s.clients.vals ensures c in Holders(s) {
        assert c in s.clients.keys;
        assert c !in Idle(s);
      }
    } else {
      assert Idle(s)[0] in Idle(s);
    }
  }

  /** May `c` be evicted: it holds no token, and if it is protected then every idle one is. */
  predicate MayGo(s: Store, protected: set<string>, c: string) {
    && c in s.clients.vals && c !in Holders(s)
    && (c in protected ==> forall d | d in s.clients.vals && d !in Holders(s) :: d in protected)
  }

  lemma EvictableMayGo(s: Store, protected: set<string>, c: string)
    requires Ok(s.clients)
    ensures c in Evictable(s, protected) <==> MayGo(s, protected, c)
  {
    var preferred := Among(Idle(s), s.clients.vals.Keys - protected);
    assert forall d :: d in Idle(s) <==> d in s.clients.vals && d !in Holders(s);
    assert forall d :: d in preferred <==> d in s.clients.vals && d !in Holders(s) && d !in protected;
    if preferred != [] {
      assert preferred[0] in preferred;
    }
  }

  /** When a client registered: at the epoch, if its record does not say so in a number. */
  function Dating(issuedAt: IssuedAt): (t: real)
    ensures issuedAt.At? ==> t == issuedAt.seconds
    ensures !issuedAt.At? ==> t == 0.0
  {
    match issuedAt
    case At(seconds) => seconds
    case _ => 0.0
  }

  /** Truncation: the nearest whole number that is no further from zero. */
  lemma TruncatesTowardsZero(x: real)
    ensures var n := Trunc(x) as real;
      if x >= 0.0 then 0.0 <= n <= x < n + 1.0 else n - 1.0 < x <= n <= 0.0
  {
  }

  /** Who is evicted: one that may go, none that may go is older, and everybody else stays. */
  lemma EvictsTheOldest(s: Store, protected: set<string>) returns (victim: string)
    requires Ok(s.clients) && EvictOne(s, protected).1
    ensures MayGo(s, protected, victim)
    ensures forall c | MayGo(s, protected, c) ::
              Dating(s.clients.vals[victim].issuedAt) <= Dating(s.clients.vals[c].issuedAt)
    ensures EvictOne(s, protected).0 == s.(clients := Pop(s.clients, victim))
  {
    var candidates := Evictable(s, protected);
    var i := FirstMin(candidates, IssueTimes(s.clients));
    victim := candidates[i];
    EvictableMayGo(s, protected, victim);
    forall c | MayGo(s, protected, c)
      ensures IssuedSeconds(s.clients.vals[victim]) <= IssuedSeconds(s.clients.vals[c])
    {
      EvictableMayGo(s, protected, c);
      var j :| 0 <= j < |candidates| && candidates[j] == c;
      assert IssueTimes(s.clients)[candidates[i]] <= IssueTimes(s.clients)[candidates[j]];
    }
  }

  /** `t` is `s` with `id` registered as `rec`, and without the clients in `lost`. */
  predicate Gained(s: Store, t: Store, id: string, rec: ClientRec, lost: set<string>) {
    && t.access == s.access && t.refresh == s.refresh
    && t.clients.vals == (map c | c in s.clients.vals && c !in lost :: s.clients.vals[c])[id := rec]
  }

  /** A stored registration is dated and findable, changes no other record, and costs at most
      one other client its own: one that may go. */
  lemma PutClientStores(s: Store, id: string, rec: ClientRec, protected: set<string>, maxClients: nat, now: real)
      returns (lost: set<string>)
    requires Ok(s.clients) && PutClient(s, id, rec, protected, maxClients, now).1
    ensures Gained(s, PutClient(s, id, rec, protected, maxClients, now).0, id,
                   rec.(issuedAt := if rec.issuedAt.Missing? then At(Trunc(now) as real) else rec.issuedAt), lost)
    ensures |lost| <= 1 && forall c | c in lost :: MayGo(s, protected, c)
  {
    if id !in s.clients.vals && |s.clients.keys| >= maxClients {
      var victim := EvictionGains(s, id, Dated(rec, now), protected);
      lost := {victim};
    } else {
      PutGains(s, id, Dated(rec, now));
      lost := {};
    }
  }

  lemma PutGains(s: Store, id: string, rec: ClientRec)
    ensures Gained(s, s.(clients := Put(s.clients, id, rec)), id, rec, {})
  {
    assert s.clients.vals == map c | c in s.clients.vals && c !in {} :: s.clients.vals[c];
  }

  lemma EvictionGains(s: Store, id: string, rec: ClientRec, protected: set<string>) returns (victim: string)
    requires Ok(s.clients) && EvictOne(s, protected).1
    ensures var t := EvictOne(s, protected).0;
      Gained(s, t.(clients := Put(t.clients, id, rec)), id, rec, {victim}) && MayGo(s, protected, victim)
  {
    victim := EvictsTheOldest(s, protected);
    PopGains(s, victim, id, rec);
  }

  lemma PopGains(s: Store, victim: string, id: string, rec: ClientRec)
    ensures Gained(s, s.(clients := Put(Pop(s.clients, victim), id, rec)), id, rec, {victim})
  {
    assert Pop(s.clients, victim).vals == map c | c in s.clients.vals && c !in {victim} :: s.clients.vals[c];
  }

  /** The clients of the tokens that have not expired. */
  function LiveHolders(s: Store, now: real): set<string> {
    (set d | d in s.access && !Expired(s.access[d].expiresAt, now) :: s.access[d].clientId)
    + set d | d in s.refresh && !Expired(s.refresh[d].expiresAt, now) :: s.refresh[d].clientId
  }

  /** What a prune leaves: exactly the unexpired tokens, and exactly the clients that hold one or
      registered within the TTL. */
  lemma PruneExactly(s: Store, now: real, clientTtl: real, c: string, d: Digest)
    ensures var t := Prune(s, now, clientTtl);
      && (c in t.clients.vals <==>
            c in s.clients.vals && (c in LiveHolders(s, now) || now <= Dating(s.clients.vals[c].issuedAt) + clientTtl))
      && (d in t.access <==> d in s.access && !Expired(s.access[d].expiresAt, now))
      && (d in t.refresh <==> d in s.refresh && !Expired(s.refresh[d].expiresAt, now))
  {
    PrunedHolders(s, now);
  }

  lemma PrunedHolders(s: Store, now: real)
    ensures Holders(PruneTokens(s, now)) == LiveHolders(s, now)
  {
    var t := PruneTokens(s, now);
    assert forall e | e in t.access :: t.access[e] == s.access[e];
    assert forall e | e in t.refresh :: t.refresh[e] == s.refresh[e];
  }

  /** A failure is meant for a store in which every client holds a live token. It comes without
      that exactly when a new client meets a full store in which each client holds a token, but
      one holds none that is live; exactly then a prune would have made room. */
  lemma ExpiredTokensBlock(s: Store, id: string, rec: ClientRec, protected: set<string>, maxClients: nat, now: real)
    requires Ok(s.clients)
    ensures var blocked := !PutClient(s, id, rec, protected, maxClients, now).1;
      var prunedFirst := PutClient(PruneTokens(s, now), id, rec, protected, maxClients, now).1;
      var full := id !in s.clients.vals && |s.clients.keys| >= maxClients;
      && (blocked && prunedFirst <==> full && (forall c | c in s.clients.vals :: c in Holders(s))
                                           && exists c :: c in s.clients.vals && c !in LiveHolders(s, now))
      && (blocked && !prunedFirst <==> full && forall c | c in s.clients.vals :: c in LiveHolders(s, now))
  {
    PutClientFails(s, id, rec, protected, maxClients, now);
    PutClientFails(PruneTokens(s, now), id, rec, protected, maxClients, now);
    PrunedHolders(s, now);
    assert LiveHolders(s, now) <= Holders(s);
  }

  /** A store for one client. Its only token has expired when the next client registers. */
  lemma OneExpiredToken(rec: ClientRec, tokenRec: AccessRec, token: string, clientTtl: real)
    requires tokenRec.clientId == "a" && tokenRec.expiresAt == Some(1.0)
    ensures var ops := [Register("a", rec, {}, 0.0), AddAccess(token, tokenRec)];
      && Run(EMPTY_STORE, ops, 1, clientTtl)
      && !PutClient(End(EMPTY_STORE, ops, 1, clientTtl), "b", rec, {}, 1, 2.0).1
      && LiveHolders(End(EMPTY_STORE, ops, 1, clientTtl), 2.0) == {}
  {
    var register, add := Register("a", rec, {}, 0.0), AddAccess(token, tokenRec);
    var s := Apply(EMPTY_STORE, register, 1, clientTtl);
    var t := Apply(s, add, 1, clientTtl);
    assert [register, add][1..] == [add] && [add][1..] == [];
    assert s.clients == Dict(["a"], map["a" := Dated(rec, 0.0)]);
    assert End(s, [add], 1, clientTtl) == End(t, [], 1, clientTtl) == t;
    assert Run(s, [add], 1, clientTtl);
    assert t.access[DigestOf(token)] == tokenRec;
    PutClientFails(t, "b", rec, {}, 1, 2.0);
  }

  lemma PutKeeps(s: Store, id: string, rec: ClientRec, maxClients: nat)
    requires Integrity(s, maxClients) && (id in s.clients.vals || |s.clients.keys| < maxClients)
    ensures Integrity(s.(clients := Put(s.clients, id, rec)), maxClients)
  {
    PutOk(s.clients, id, rec);
    assert Holders(s.(clients := Put(s.clients, id, rec))) == Holders(s);
  }

  lemma PopKeeps(s: Store, victim: string, maxClients: nat)
    requires Integrity(s, maxClients) && victim in s.clients.vals && victim !in Holders(s)
    ensures var t := s.(clients := Pop(s.clients, victim));
      Integrity(t, maxClients) && |t.clients.keys| < maxClients
  {
    PopShrinks(s.clients, victim);
    assert Holders(s.(clients := Pop(s.clients, victim))) == Holders(s);
  }

  lemma PutClientKeeps(s: Store, id: string, rec: ClientRec, protected: set<string>, maxClients: nat, now: real)
    requires Integrity(s, maxClients)
    ensures Integrity(PutClient(s, id, rec, protected, maxClients, now).0, maxClients)
  {
    if id in s.clients.vals || |s.clients.keys| < maxClients {
      PutKeeps(s, id, Dated(rec, now), maxClients);
    } else if EvictOne(s, protected).1 {
      var victim := EvictsTheOldest(s, protected);
      PopKeeps(s, victim, maxClients);
      PutKeeps(s.(clients := Pop(s.clients, victim)), id, Dated(rec, now), maxClients);
    }
  }

  /** Tokens may go; a token may come, for a registered client. */
  lemma TokensKeep(s: Store, t: Store, maxClients: nat)
    requires Integrity(s, maxClients) && t.clients == s.clients
    requires forall d | d in t.access :: t.access[d].clientId in s.clients.vals
    requires forall d | d in t.refresh :: t.refresh[d].clientId in s.clients.vals
    ensures Integrity(t, maxClients)
  {
  }

  lemma PruneKeeps(s: Store, now: real, clientTtl: real, maxClients: nat)
    requires Integrity(s, maxClients)
    ensures Integrity(Prune(s, now, clientTtl), maxClients)
  {
    var t := PruneTokens(s, now);
    assert Holders(t) <= Holders(s);
    var u := PruneClients(t, now, clientTtl);
    RestrictOk(t.clients, t.clients.vals.Keys - Abandoned(t, now, clientTtl));
    assert Holders(u) == Holders(t);
  }

  // --------------------------------------------------------------------------- runs

  datatype Op =
    | Register(id: string, rec: ClientRec, protected: set<string>, now: real)
    | AddAccess(token: string, accessRec: AccessRec)
    | AddRefresh(token: string, refreshRec: RefreshRec)
    | DropAccess(digest: Digest)
    | DropRefresh(token: string)
    | DropRefreshFor(digest: Digest)
    | PruneAll(now: real)

  function Apply(s: Store, op: Op, maxClients: nat, clientTtl: real): Store {
    match op
    case Register(id, rec, protected, now) => PutClient(s, id, rec, protected, maxClients, now).0
    case AddAccess(token, rec) => PutAccess(s, token, rec)
    case AddRefresh(token, rec) => PutRefresh(s, token, rec)
    case DropAccess(digest) => DeleteAccess(s, digest)
    case DropRefresh(token) => PopRefresh(s, token)
    case DropRefreshFor(digest) => DeleteRefreshFor(s, digest)
    case PruneAll(now) => Prune(s, now, clientTtl)
  }

  /** Tokens are only issued to registered clients. */
  predicate Proper(s: Store, op: Op) {
    && (op.AddAccess? ==> op.accessRec.clientId in s.clients.vals)
    && (op.AddRefresh? ==> op.refreshRec.clientId in s.clients.vals)
  }

  lemma HoldersHold(s: Store)
    requires Registered(s)
    ensures forall d | d in s.access :: s.access[d].clientId in s.clients.vals
    ensures forall d | d in s.refresh :: s.refresh[d].clientId in s.clients.vals
  {
    assert forall d | d in s.access :: s.access[d].clientId in Holders(s);
    assert forall d | d in s.refresh :: s.refresh[d].clientId in Holders(s);
  }

  lemma OpKeeps(s: Store, op: Op, maxClients: nat, clientTtl: real)
    requires Integrity(s, maxClients) && Proper(s, op)
    ensures Integrity(Apply(s, op, maxClients, clientTtl), maxClients)
  {
    HoldersHold(s);
    match op
    case Register(id, rec, protected, now) => PutClientKeeps(s, id, rec, protected, maxClients, now);
    case PruneAll(now) => PruneKeeps(s, now, clientTtl, maxClients);
    case _ => TokensKeep(s, Apply(s, op, maxClients, clientTtl), maxClients);
  }

  ghost predicate Run(s: Store, ops: seq<Op>, maxClients: nat, clientTtl: real)
    decreases |ops|
  {
    ops == [] || (Proper(s, ops[0]) && Run(Apply(s, ops[0], maxClients, clientTtl), ops[1..], maxClients, clientTtl))
  }

  function End(s: Store, ops: seq<Op>, maxClients: nat, clientTtl: real): Store
    decreases |ops|
  {
    if ops == [] then s else End(Apply(s, ops[0], maxClients, clientTtl), ops[1..], maxClients, clientTtl)
  }

  lemma {:induction false} RunKeeps(s: Store, ops: seq<Op>, maxClients: nat, clientTtl: real)
    requires Integrity(s, maxClients) && Run(s, ops, maxClients, clientTtl)
    ensures Integrity(End(s, ops, maxClients, clientTtl), maxClients)
    decreases |ops|
  {
    if ops != [] {
      OpKeeps(s, ops[0], maxClients, clientTtl);
      RunKeeps(Apply(s, ops[0], maxClients, clientTtl), ops[1..], maxClients, clientTtl);
    }
  }

  /** Starting empty: never more than `maxClients` registrations, and every stored token's
      client is still registered, through every eviction and every prune. */
  lemma StoreStaysSound(ops: seq<Op>, maxClients: nat, clientTtl: real)
    requires Run(EMPTY_STORE, ops, maxClients, clientTtl)
    ensures var s := End(EMPTY_STORE, ops, maxClients, clientTtl);
      && |s.clients.keys| == |s.clients.vals| <= maxClients
      && (forall d | d in s.access :: s.access[d].clientId in s.clients.vals)
      && (forall d | d in s.refresh :: s.refresh[d].clientId in s.clients.vals)
  {
    assert Holders(EMPTY_STORE) == {};
    RunKeeps(EMPTY_STORE, ops, maxClients, clientTtl);
    var s := End(EMPTY_STORE, ops, maxClients, clientTtl);
    KeyCount(s.clients);
    HoldersHold(s);
  }
}
