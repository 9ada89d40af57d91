/** The persistent OAuth store: three dictionaries updated in place, and a file that is
    rewritten after every change. Writes are taken to succeed. */
module OAuthStore {
  import opened Text
  import opened PyDict
  import Spec = StoreSpec
  import opened StoreSpec

  class Store {
    const maxClients: nat
    const clientTtl: real
    var clients: Dict<string, ClientRec>
    var access: map<Digest, AccessRec>
    var refresh: map<Digest, RefreshRec>

    /** The document on disk, if there is one. */
    var disk: Option<Spec.Store>

    ghost predicate Valid()
      reads this
    {
      Ok(clients)
    }

    ghost function View(): Spec.Store
      reads this
    {
      Spec.Store(clients, access, refresh)
    }

    /** What a restart would read is what memory holds. */
    ghost predicate Synced()
      reads this
    {
      View() == if disk.Some? then disk.value else EMPTY_STORE
    }

    /** Open the store on whatever an earlier process left behind. */
    constructor (saved: Option<Spec.Store>, maxClients: nat, clientTtl: real, now: real)
      requires saved.Some? ==> Ok(saved.value.clients)
      ensures Valid() && Synced() && this.maxClients == maxClients && this.clientTtl == clientTtl
      ensures View() == Spec.Prune(if saved.Some? then saved.value else EMPTY_STORE, now, clientTtl)
    {
      this.maxClients := maxClients;
      this.clientTtl := clientTtl;
      clients, access, refresh, disk := Empty(), map[], map[], None;
      new;
      disk := saved;
      if saved.Some? {
        clients, access, refresh := saved.value.clients, saved.value.access, saved.value.refresh;
        var _ := Prune(now);
      } else {
        PruneOfNothing(View(), now, clientTtl);
      }
    }

    method Save()
      modifies this`disk
      ensures Synced()
    {
      disk := Some(Spec.Store(clients, access, refresh));
    }

    // -------------------------------------------------------------------- clients

    method PutClient(id: string, rec: ClientRec, protected: set<string>, now: real) returns (stored: bool)
      requires Valid() && Synced()
      modifies this`clients, this`disk
      ensures Valid() && Synced()
      ensures (View(), stored) == Spec.PutClient(old(View()), id, rec, protected, maxClients, now)
    {
      if id !in clients.vals && |clients.keys| >= maxClients {
        var evicted := EvictOneClient(protected);
        if !evicted {
          return false;
        }
      }
      PutOk(clients, id, Dated(rec, now));
      clients := Put(clients, id, Dated(rec, now));
      Save();
      return true;
    }

    method EvictOneClient(protected: set<string>) returns (evicted: bool)
      requires Valid()
      modifies this`clients
      ensures Valid() && (View(), evicted) == EvictOne(old(View()), protected)
    {
      var live := Holders(Spec.Store(clients, access, refresh));
      var candidates := Select(clients.keys, clients.vals.Keys - live);
      if candidates == [] {
        return false;
      }
      var preferred := Select(candidates, clients.vals.Keys - protected);
      if preferred == [] {
        preferred := candidates;
      }
      assert preferred == Evictable(View(), protected);
      var oldest := preferred[FirstMin(preferred, IssueTimes(clients))];
      PopOk(clients, oldest);
      clients := Pop(clients, oldest);
      return true;
    }

    // --------------------------------------------------------------------- tokens

    method PutAccessToken(token: string, rec: AccessRec) returns (digest: Digest)
      requires Valid()
      modifies this`access, this`disk
      ensures Valid() && Synced() && digest == DigestOf(token) && View() == PutAccess(old(View()), token, rec)
    {
      digest := DigestOf(token);
      access := access[digest := rec];
      Save();
    }

    method GetAccessToken(token: string) returns (rec: Option<AccessRec>)
      ensures rec == FindAccess(View(), token)
    {
      rec := if DigestOf(token) in access then Some(access[DigestOf(token)]) else None;
    }

    method DeleteAccessToken(digest: Digest)
      requires Valid() && Synced()
      modifies this`access, this`disk
      ensures Valid() && Synced() && View() == DeleteAccess(old(View()), digest)
    {
      if digest in access {
        access := access - {digest};
        Save();
      } else {
        assert access - {digest} == access;
      }
    }

    method PutRefreshToken(token: string, rec: RefreshRec) returns (digest: Digest)
      requires Valid()
      modifies this`refresh, this`disk
      ensures Valid() && Synced() && digest == DigestOf(token) && View() == PutRefresh(old(View()), token, rec)
    {
      digest := DigestOf(token);
      refresh := refresh[digest := rec];
      Save();
    }

    method GetRefreshToken(token: string) returns (rec: Option<RefreshRec>)
      ensures rec == FindRefresh(View(), token)
    {
      rec := if DigestOf(token) in refresh then Some(refresh[DigestOf(token)]) else None;
    }

    /** Remove a refresh token and return its record: the first step of a rotation. */
    method PopRefreshToken(token: string) returns (rec: Option<RefreshRec>)
      requires Valid() && Synced()
      modifies this`refresh, this`disk
      ensures Valid() && Synced() && View() == PopRefresh(old(View()), token)
      ensures rec == FindRefresh(old(View()), token)
    {
      var digest := DigestOf(token);
      if digest !in refresh {
        assert refresh - {digest} == refresh;
        return None;
      }
      rec := Some(refresh[digest]);
      refresh := refresh - {digest};
      Save();
    }

    method DeleteRefreshTokensForAccess(digest: Digest) returns (dropped: nat)
      requires Valid() && Synced()
      modifies this`refresh, this`disk
      ensures Valid() && Synced() && View() == DeleteRefreshFor(old(View()), digest)
      ensures dropped == |set d | d in old(refresh) && old(refresh)[d].accessHash == Some(digest)|
    {
      var digests := set d | d in refresh && refresh[d].accessHash == Some(digest);
      dropped := |digests|;
      refresh := refresh - digests;
      if digests != {} {
        Save();
      } else {
        assert refresh == old(refresh);
      }
    }

    // ---------------------------------------------------------------- maintenance

    /** Drop expired tokens, then registrations left without a token for too long. */
    method Prune(now: real) returns (removed: nat)
      requires Valid() && Synced()
      modifies this`clients, this`access, this`refresh, this`disk
      ensures Valid() && Synced() && View() == Spec.Prune(old(View()), now, clientTtl)
      ensures removed == |old(access)| - |access| + |old(refresh)| - |refresh| + |old(clients).vals| - |clients.vals|
    {
      removed := PruneTokens(now);
      var registrations := PruneClients(now);
      removed := removed + registrations;
      if removed > 0 {
        Save();
      }
    }

    method PruneClients(now: real) returns (removed: nat)
      requires Valid()
      modifies this`clients
      ensures Valid() && View() == Spec.PruneClients(old(View()), now, clientTtl)
      ensures removed == |old(clients).vals| - |clients.vals|
      ensures removed == 0 ==> View() == old(View())
    {
      var stale := Abandoned(Spec.Store(clients, access, refresh), now, clientTtl);
      removed := |stale|;
      clients := PopAll(clients, stale);
      DroppedCount(old(clients), stale);
    }

    method PruneTokens(now: real) returns (removed: nat)
      modifies this`access, this`refresh
      ensures View() == Spec.PruneTokens(old(View()), now)
      ensures removed == |old(access)| - |access| + |old(refresh)| - |refresh|
      ensures removed == 0 ==> View() == old(View())
    {
      removed := PruneAccess(now);
      var more := PruneRefresh(now);
      removed := removed + more;
    }

    method PruneAccess(now: real) returns (removed: nat)
      modifies this`access
      ensures access == map d | d in old(access) && !Expired(old(access)[d].expiresAt, now) :: old(access)[d]
      ensures removed == |old(access)| - |access| && (removed == 0 ==> access == old(access))
    {
      var dead := set d | d in access && Expired(access[d].expiresAt, now);
      Shrinks(access, dead);
      LiveAccessLeft(access, dead, now);
      removed := |dead|;
      access := access - dead;
    }

    method PruneRefresh(now: real) returns (removed: nat)
      modifies this`refresh
      ensures refresh == map d | d in old(refresh) && !Expired(old(refresh)[d].expiresAt, now) :: old(refresh)[d]
      ensures removed == |old(refresh)| - |refresh| && (removed == 0 ==> refresh == old(refresh))
    {
      var dead := set d | d in refresh && Expired(refresh[d].expiresAt, now);
      Shrinks(refresh, dead);
      LiveRefreshLeft(refresh, dead, now);
      removed := |dead|;
      refresh := refresh - dead;
    }
  }

  lemma LiveAccessLeft(m: map<Digest, AccessRec>, dead: set<Digest>, now: real)
    requires dead == set d | d in m && Expired(m[d].expiresAt, now)
    ensures m - dead == map d | d in m && !Expired(m[d].expiresAt, now) :: m[d]
  {
  }

  lemma LiveRefreshLeft(m: map<Digest, RefreshRec>, dead: set<Digest>, now: real)
    requires dead == set d | d in m && Expired(m[d].expiresAt, now)
    ensures m - dead == map d | d in m && !Expired(m[d].expiresAt, now) :: m[d]
  {
  }

  lemma Shrinks<K, V>(m: map<K, V>, gone: set<K>)
    requires gone <= m.Keys
    ensures |m - gone| == |m| - |gone| && (|gone| == 0 ==> m - gone == m)
  {
    assert |m.Keys| == |m| && |(m - gone).Keys| == |m - gone|;
    assert (m - gone).Keys == m.Keys - gone;
  }

  lemma DroppedCount(clients: Dict<string, ClientRec>, stale: set<string>)
    requires Ok(clients) && stale <= clients.vals.Keys
    ensures var rest := Restrict(clients, clients.vals.Keys - stale);
      |rest.vals| == |clients.vals| - |stale| && (|stale| == 0 ==> rest == clients)
  {
    Shrinks(clients.vals, stale);
    assert Restrict(clients, clients.vals.Keys - stale).vals == clients.vals - stale;
    if |stale| == 0 {
      RestrictAll(clients);
      assert clients.vals.Keys - stale == clients.vals.Keys;
    }
  }

  lemma PruneOfNothing(s: Spec.Store, now: real, clientTtl: real)
    requires s == EMPTY_STORE
    ensures Spec.Prune(s, now, clientTtl) == s
  {
    assert PruneTokens(s, now) == s;
  }
}
