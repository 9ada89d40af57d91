/** Pruning and restarting are invisible to whoever holds a token: two stores that hold the same
    unexpired tokens give the same answers, however differently they were pruned. (A restart
    reads back what memory held and prunes it, so here it is a prune.) */
module StorePruning {
  import opened Text
  import opened StoreSpec
  import opened TokenSpec

  predicate LiveAccess(s: Store, d: Digest, now: real) {
    d in s.access && !Expired(s.access[d].expiresAt, now)
  }

  predicate LiveRefresh(s: Store, d: Digest, now: real) {
    d in s.refresh && !Expired(s.refresh[d].expiresAt, now)
  }

  /** The two stores agree on every token that has not expired. */
  ghost predicate SameLive(s: Store, t: Store, now: real) {
    && (forall d :: LiveAccess(s, d, now) <==> LiveAccess(t, d, now))
    && (forall d | LiveAccess(s, d, now) :: s.access[d] == t.access[d])
    && (forall d :: LiveRefresh(s, d, now) <==> LiveRefresh(t, d, now))
    && (forall d | LiveRefresh(s, d, now) :: s.refresh[d] == t.refresh[d])
  }

  lemma SameLater(s: Store, t: Store, now: real, later: real)
    requires SameLive(s, t, now) && now <= later
    ensures SameLive(s, t, later)
  {
    assert forall d | LiveAccess(s, d, later) || LiveAccess(t, d, later) ::
        LiveAccess(s, d, now) && LiveAccess(t, d, now);
    assert forall d | LiveRefresh(s, d, later) || LiveRefresh(t, d, later) ::
        LiveRefresh(s, d, now) && LiveRefresh(t, d, now);
  }

  /** A prune, or a restart, of either store. */
  lemma PruneInvisible(s: Store, t: Store, now: real, clientTtl: real)
    requires SameLive(s, t, now)
    ensures SameLive(Prune(s, now, clientTtl), t, now) && SameLive(s, Prune(t, now, clientTtl), now)
  {
    PruneKeepsLive(s, now, clientTtl);
    PruneKeepsLive(t, now, clientTtl);
  }

  lemma PruneKeepsLive(s: Store, now: real, clientTtl: real)
    ensures var p := Prune(s, now, clientTtl);
      && (forall d :: LiveAccess(p, d, now) <==> LiveAccess(s, d, now))
      && (forall d :: LiveRefresh(p, d, now) <==> LiveRefresh(s, d, now))
      && (forall d | LiveAccess(s, d, now) :: p.access[d] == s.access[d])
      && (forall d | LiveRefresh(s, d, now) :: p.refresh[d] == s.refresh[d])
  {
  }

  // ---------------------------------------------------------------------- operations

  datatype Op =
    | Login(client: string, scopes: seq<string>, at: string, rt: string)
    | Refresh(client: string, token: string, scopes: seq<string>, at: string, rt: string)
    | Verify(token: string)
    | Revoke(token: string)

  datatype Answer = Pair(at: string, rt: string, scopes: seq<string>) | NoGrant | Checked(bearer: Option<Bearer>) | Done

  /** What a grant says, but for the wording of a refusal. */
  function Said(g: Grant): Answer {
    if g.Issued? then Pair(g.accessToken, g.refreshToken, g.scopes) else NoGrant
  }

  function Apply(s: Store, cfg: Config, op: Op, now: real): (Store, Answer) {
    match op
    case Login(client, scopes, at, rt) => (FirstIssue(s, cfg, client, scopes, now, at, rt), Pair(at, rt, scopes))
    case Refresh(client, token, scopes, at, rt) =>
      var (t, grant) := ExchangeRefresh(s, cfg, client, token, scopes, now, at, rt);
      (t, Said(grant))
    case Verify(token) =>
      var (t, bearer) := LoadAccess(s, cfg, token, now);
      (t, Checked(bearer))
    case Revoke(token) => (RevokeAccess(s, token), Done)
  }

  lemma IssueSame(s: Store, t: Store, cfg: Config, client: string, scopes: seq<string>, now: real,
                  until: Option<real>, at: string, rt: string)
    requires SameLive(s, t, now)
    ensures SameLive(IssueTokens(s, cfg, client, scopes, now, until, until, at, rt),
                     IssueTokens(t, cfg, client, scopes, now, until, until, at, rt), now)
  {
    var s' := IssueTokens(s, cfg, client, scopes, now, until, until, at, rt);
    var t' := IssueTokens(t, cfg, client, scopes, now, until, until, at, rt);
    assert s'.access[DigestOf(at)] == t'.access[DigestOf(at)] && s'.refresh[DigestOf(rt)] == t'.refresh[DigestOf(rt)];
    forall d | d != DigestOf(at)
      ensures LiveAccess(s', d, now) == LiveAccess(s, d, now) && LiveAccess(t', d, now) == LiveAccess(t, d, now)
    {
    }
    forall d | d != DigestOf(rt)
      ensures LiveRefresh(s', d, now) == LiveRefresh(s, d, now) && LiveRefresh(t', d, now) == LiveRefresh(t, d, now)
    {
    }
  }

  /** Deleting the same records from both. */
  lemma DeleteSame(s: Store, t: Store, now: real, a: set<Digest>, r: set<Digest>)
    requires SameLive(s, t, now)
    ensures SameLive(s.(access := s.access - a, refresh := s.refresh - r),
                     t.(access := t.access - a, refresh := t.refresh - r), now)
  {
    var s', t' :=
        s.(access := s.access - a, refresh := s.refresh - r), t.(access := t.access - a, refresh := t.refresh - r);
    forall d
      ensures LiveAccess(s', d, now) == (LiveAccess(s, d, now) && d !in a)
              && LiveAccess(t', d, now) == (LiveAccess(t, d, now) && d !in a)
    {
    }
    forall d
      ensures LiveRefresh(s', d, now) == (LiveRefresh(s, d, now) && d !in r)
              && LiveRefresh(t', d, now) == (LiveRefresh(t, d, now) && d !in r)
    {
    }
  }

  lemma RefreshSame(s: Store, t: Store, cfg: Config, op: Op, now: real)
    requires SameLive(s, t, now) && op.Refresh?
    ensures SameLive(Apply(s, cfg, op, now).0, Apply(t, cfg, op, now).0, now)
    ensures Apply(s, cfg, op, now).1 == Apply(t, cfg, op, now).1
  {
    var d := DigestOf(op.token);
    var s', t' := PopRefresh(s, op.token), PopRefresh(t, op.token);
    DeleteSame(s, t, now, {}, {d});
    assert s.access - {} == s.access && t.access - {} == t.access;
    assert LiveRefresh(s, d, now) <==> LiveRefresh(t, d, now);
    if LiveRefresh(s, d, now) && s.refresh[d].clientId == op.client {
      var rec := s.refresh[d];
      if rec.accessHash.Some? {
        DeleteSame(s', t', now, {rec.accessHash.value}, {});
        assert s'.refresh - {} == s'.refresh && t'.refresh - {} == t'.refresh;
      }
      IssueSame(RevokeLast(s', rec), RevokeLast(t', rec), cfg, op.client,
                if op.scopes != [] then op.scopes else rec.scopes, now, rec.absoluteExpiresAt, op.at, op.rt);
    }
  }

  lemma VerifySame(s: Store, t: Store, cfg: Config, token: string, now: real)
    requires SameLive(s, t, now)
    ensures SameLive(LoadAccess(s, cfg, token, now).0, LoadAccess(t, cfg, token, now).0, now)
    ensures LoadAccess(s, cfg, token, now).1 == LoadAccess(t, cfg, token, now).1
  {
    var d := DigestOf(token);
    assert LiveAccess(s, d, now) <==> LiveAccess(t, d, now);
    if !LiveAccess(s, d, now) {
      DeleteSame(s, t, now, {d}, {});
      assert s.refresh - {} == s.refresh && t.refresh - {} == t.refresh;
      assert LoadAccess(s, cfg, token, now).0.access == s.access - {d};
      assert LoadAccess(t, cfg, token, now).0.access == t.access - {d};
    }
  }

  lemma RevokeSame(s: Store, t: Store, token: string, now: real)
    requires SameLive(s, t, now)
    ensures SameLive(RevokeAccess(s, token), RevokeAccess(t, token), now)
  {
    var s', t' := RevokeAccess(s, token), RevokeAccess(t, token);
    forall d
      ensures LiveAccess(s', d, now) == (LiveAccess(s, d, now) && d != DigestOf(token))
      ensures LiveAccess(t', d, now) == (LiveAccess(t, d, now) && d != DigestOf(token))
    {
    }
    forall d
      ensures LiveRefresh(s', d, now) == (LiveRefresh(s, d, now) && s.refresh[d].accessHash != Some(DigestOf(token)))
      ensures LiveRefresh(t', d, now) == (LiveRefresh(t, d, now) && t.refresh[d].accessHash != Some(DigestOf(token)))
    {
    }
  }

  lemma OpSame(s: Store, t: Store, cfg: Config, op: Op, now: real)
    requires SameLive(s, t, now)
    ensures SameLive(Apply(s, cfg, op, now).0, Apply(t, cfg, op, now).0, now)
    ensures Apply(s, cfg, op, now).1 == Apply(t, cfg, op, now).1
  {
    match op
    case Login(client, scopes, at, rt) => IssueSame(s, t, cfg, client, scopes, now, None, at, rt);
    case Refresh(_, _, _, _, _) => RefreshSame(s, t, cfg, op, now);
    case Verify(token) => VerifySame(s, t, cfg, token, now);
    case Revoke(token) => RevokeSame(s, t, token, now);
  }

  // ------------------------------------------------------------------------------ runs

  datatype Step = Step(now: real, op: Op)

  /** The answers of a store that is pruned or restarted just before the requests marked in
      `prunes`. */
  function Answers(s: Store, cfg: Config, clientTtl: real, steps: seq<Step>, prunes: seq<bool>): seq<Answer>
    requires |prunes| == |steps|
    decreases |steps|
  {
    if steps == [] then []
    else
      var kept := if prunes[0] then Prune(s, steps[0].now, clientTtl) else s;
      var (after, answer) := Apply(kept, cfg, steps[0].op, steps[0].now);
      [answer] + Answers(after, cfg, clientTtl, steps[1..], prunes[1..])
  }

  ghost predicate Clocked(before: real, steps: seq<Step>)
    decreases |steps|
  {
    steps == [] || (before <= steps[0].now && Clocked(steps[0].now, steps[1..]))
  }

  lemma {:induction false} RunsAgree(s: Store, t: Store, cfg: Config, clientTtl: real, steps: seq<Step>, before: real,
                                     left: seq<bool>, right: seq<bool>)
    requires |left| == |right| == |steps| && SameLive(s, t, before) && Clocked(before, steps)
    ensures Answers(s, cfg, clientTtl, steps, left) == Answers(t, cfg, clientTtl, steps, right)
    decreases |steps|
  {
    if steps != [] {
      var step := steps[0];
      SameLater(s, t, before, step.now);
      PruneInvisible(s, t, step.now, clientTtl);
      var s' := if left[0] then Prune(s, step.now, clientTtl) else s;
      PruneInvisible(s', t, step.now, clientTtl);
      var t' := if right[0] then Prune(t, step.now, clientTtl) else t;
      OpSame(s', t', cfg, step.op, step.now);
      RunsAgree(Apply(s', cfg, step.op, step.now).0, Apply(t', cfg, step.op, step.now).0, cfg, clientTtl, steps[1..],
                step.now, left[1..], right[1..]);
    }
  }

  /** Over any requests at non-decreasing times, the answers do not depend on when the store was
      pruned or restarted. */
  lemma PruningIsInvisible(s: Store, cfg: Config, clientTtl: real, steps: seq<Step>, start: real,
                           left: seq<bool>, right: seq<bool>)
    requires |left| == |right| == |steps| && Clocked(start, steps)
    ensures Answers(s, cfg, clientTtl, steps, left) == Answers(s, cfg, clientTtl, steps, right)
  {
    RunsAgree(s, s, cfg, clientTtl, steps, start, left, right);
  }

  // -------------------------------------------------------- where pruning does show

  predicate Holds(s: Store, client: string, d: Digest) {
    d in s.refresh && s.refresh[d].clientId == client
  }

  /** The description of a refusal tells an expired token from an unknown one, and pruning turns
      the first into the second: exactly when one store still holds the client's expired token. */
  lemma RefusalsDiffer(s: Store, t: Store, cfg: Config, client: string, token: string, scopes: seq<string>, now: real,
                       at: string, rt: string)
    requires SameLive(s, t, now)
    ensures var d := DigestOf(token);
      var left := ExchangeRefresh(s, cfg, client, token, scopes, now, at, rt).1;
      var right := ExchangeRefresh(t, cfg, client, token, scopes, now, at, rt).1;
      (left != right) <==>
      (!LiveRefresh(s, d, now) && (Holds(s, client, d) <==> !Holds(t, client, d)))
  {
    assert LiveRefresh(s, DigestOf(token), now) <==> LiveRefresh(t, DigestOf(token), now);
  }

  /** The unexpired access token that revoking a refresh token takes with it. */
  function Taken(s: Store, token: string, now: real): set<Digest> {
    var d := DigestOf(token);
    if d in s.refresh && s.refresh[d].accessHash.Some? && LiveAccess(s, s.refresh[d].accessHash.value, now)
    then {s.refresh[d].accessHash.value} else {}
  }

  lemma RevokedLive(s: Store, token: string, now: real)
    ensures var r := RevokeRefresh(s, token);
      && (forall d :: LiveAccess(r, d, now) <==> LiveAccess(s, d, now) && d !in Taken(s, token, now))
      && (forall d | LiveAccess(r, d, now) :: r.access[d] == s.access[d])
      && (forall d :: LiveRefresh(r, d, now) <==> LiveRefresh(s, d, now) && d != DigestOf(token))
      && (forall d | LiveRefresh(r, d, now) :: r.refresh[d] == s.refresh[d])
  {
  }

  /** Revoking a refresh token keeps two stores alike exactly when both would take the same live
      access token with it. A pruned store has forgotten which one an expired token minted. */
  lemma RevocationShowsPruning(s: Store, t: Store, token: string, now: real)
    requires SameLive(s, t, now)
    ensures SameLive(RevokeRefresh(s, token), RevokeRefresh(t, token), now)
            <==> Taken(s, token, now) == Taken(t, token, now)
  {
    RevokedLive(s, token, now);
    RevokedLive(t, token, now);
    var s', t' := RevokeRefresh(s, token), RevokeRefresh(t, token);
    var taken := Taken(s, token, now) + Taken(t, token, now);
    if SameLive(s', t', now) {
      forall d | d in taken ensures d in Taken(s, token, now) && d in Taken(t, token, now) {
        assert LiveAccess(s, d, now) && LiveAccess(t, d, now);
        assert LiveAccess(s', d, now) <==> LiveAccess(t', d, now);
      }
    }
  }

  /** The unexpired access tokens are this server's own. */
  ghost predicate Ours(s: Store, cfg: Config, now: real) {
    forall d | LiveAccess(s, d, now) :: s.access[d].resource in {None, Some(cfg.audience)}
  }

  /** So they stay: the server issues no others. */
  lemma OursStay(s: Store, cfg: Config, clientTtl: real, op: Op, now: real)
    requires Ours(s, cfg, now)
    ensures Ours(Apply(s, cfg, op, now).0, cfg, now) && Ours(Prune(s, now, clientTtl), cfg, now)
  {
    match op
    case Login(_, _, _, _) =>
    case Refresh(_, token, _, _, _) => assert PopRefresh(s, token).access == s.access;
    case Verify(_) =>
    case Revoke(_) =>
  }

  /** Whatever is asked from now on, and however the two stores are pruned, they answer alike. */
  ghost predicate AnswerAlike(s: Store, t: Store, cfg: Config, clientTtl: real, now: real) {
    forall steps, left, right | |left| == |right| == |steps| && Clocked(now, steps) ::
      Answers(s, cfg, clientTtl, steps, left) == Answers(t, cfg, clientTtl, steps, right)
  }

  /** Verifying a token that only `s` still holds. */
  lemma VerifyTells(s: Store, t: Store, cfg: Config, clientTtl: real, d: Digest, now: real)
    requires LiveAccess(s, d, now) && !LiveAccess(t, d, now) && s.access[d].resource in {None, Some(cfg.audience)}
    ensures !AnswerAlike(s, t, cfg, clientTtl, now) && !AnswerAlike(t, s, cfg, clientTtl, now)
  {
    var steps := [Step(now, Verify(d.token))];
    assert Apply(s, cfg, Verify(d.token), now).1 != Apply(t, cfg, Verify(d.token), now).1;
    assert Clocked(now, steps);
    assert Answers(s, cfg, clientTtl, steps, [false])[0] != Answers(t, cfg, clientTtl, steps, [false])[0];
  }

  /** Revoking a refresh token in two stores that hold the same live tokens, all of them this
      server's own: they answer all requests alike afterwards iff both take the same live access
      token along. */
  lemma RevocationTells(s: Store, t: Store, cfg: Config, clientTtl: real, token: string, now: real)
    requires SameLive(s, t, now) && Ours(s, cfg, now)
    ensures AnswerAlike(RevokeRefresh(s, token), RevokeRefresh(t, token), cfg, clientTtl, now)
            <==> Taken(s, token, now) == Taken(t, token, now)
  {
    var s', t' := RevokeRefresh(s, token), RevokeRefresh(t, token);
    if Taken(s, token, now) == Taken(t, token, now) {
      RevocationShowsPruning(s, t, token, now);
      forall steps, left, right | |left| == |right| == |steps| && Clocked(now, steps)
        ensures Answers(s', cfg, clientTtl, steps, left) == Answers(t', cfg, clientTtl, steps, right)
      {
        RunsAgree(s', t', cfg, clientTtl, steps, now, left, right);
      }
    } else {
      TakenTells(s, t, cfg, clientTtl, token, now);
    }
  }

  lemma TakenTells(s: Store, t: Store, cfg: Config, clientTtl: real, token: string, now: real)
    requires SameLive(s, t, now) && Ours(s, cfg, now) && Taken(s, token, now) != Taken(t, token, now)
    ensures !AnswerAlike(RevokeRefresh(s, token), RevokeRefresh(t, token), cfg, clientTtl, now)
  {
    var s', t' := RevokeRefresh(s, token), RevokeRefresh(t, token);
    RevokedLive(s, token, now);
    RevokedLive(t, token, now);
    if d :| d in Taken(s, token, now) && d !in Taken(t, token, now) {
      VerifyTells(t', s', cfg, clientTtl, d, now);
    } else {
      var d :| d in Taken(t, token, now) && d !in Taken(s, token, now);
      VerifyTells(s', t', cfg, clientTtl, d, now);
    }
  }

  /** A login refreshed at the very end of its lifetime: after a prune, revoking the refresh
      token, which has expired, leaves the access token alone, and without the prune it takes it
      along. So under any lifetimes, as long as access tokens live for a second. */
  lemma PrunedRevocation(cfg: Config, clientTtl: real)
    requires cfg.accessTtl >= 1
    ensures var first := FirstIssue(EMPTY_STORE, cfg, "client", [], 0.0, "access", "refresh");
      var (s, grant) :=
          ExchangeRefresh(first, cfg, "client", "refresh", [], cfg.refreshTtl as real, "access 2", "refresh 2");
      var now := (cfg.refreshTtl + 1) as real;
      && grant == Issued("access 2", "refresh 2", [])
      && LoadAccess(RevokeRefresh(Prune(s, now, clientTtl), "refresh 2"), cfg, "access 2", now).1.Some?
      && LoadAccess(RevokeRefresh(s, "refresh 2"), cfg, "access 2", now).1.None?
  {
    var first := FirstIssue(EMPTY_STORE, cfg, "client", [], 0.0, "access", "refresh");
    var s := ExchangeRefresh(first, cfg, "client", "refresh", [], cfg.refreshTtl as real, "access 2", "refresh 2").0;
    var now := (cfg.refreshTtl + 1) as real;
    assert first.refresh[DigestOf("refresh")].expiresAt == Some(cfg.refreshTtl as real);
    assert s.refresh[DigestOf("refresh 2")].expiresAt == Some(cfg.refreshTtl as real);
    assert s.access[DigestOf("access 2")].expiresAt == Some((cfg.refreshTtl + cfg.accessTtl) as real);
    assert DigestOf("refresh 2") !in Prune(s, now, clientTtl).refresh;
    assert DigestOf("access 2") in Prune(s, now, clientTtl).access;
  }
}
