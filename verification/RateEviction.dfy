/** When exactly one eviction costs the sliding window: afterwards some run that is spared by the
    cap still breaks it iff the evicted address failed last less than a lockout ago. */
module RateEviction {
  import opened PyDict
  import opened LimiterSpec
  import opened RateRank
  import opened RateWindow

  /** Some continuation from `now` on, in which the cap spares `ip` and `ip` has no success,
      records more of its failures within a lockout than are tolerated. */
  ghost predicate Breakable(l: Limiter, limits: Limits, ip: string, times: seq<real>, now: real)
    requires limits.maxTracked > 0 && Ok(l.ips)
  {
    exists run :: Run(l, run, limits, ip, now) && Crowds(Failures(l, run, limits, ip, times), limits)
  }

  predicate Crowds(times: seq<real>, limits: Limits) {
    !Spaced(times, Threshold(limits), limits.lockout)
  }

  /** Nothing in the table is from the future. */
  predicate Recent(ips: Dict<string, IpState>, now: real) {
    forall ip | ip in ips.vals :: ips.vals[ip].lastFailure <= now
  }

  /** Nobody in the table is evicted later than `ip`. */
  ghost predicate Top(ips: Dict<string, IpState>, ip: string) {
    ip in ips.vals && forall other | other in ips.vals && other != ip :: !Outranks(ips, other, ip)
  }

  lemma TopOutranked(ips: Dict<string, IpState>, ip: string, keep: set<string>)
    requires Ok(ips) && Top(ips, ip) && ip in keep && keep <= ips.vals.Keys
    ensures ip in Restrict(ips, keep).vals && Outranking(Restrict(ips, keep), ip) == {}
  {
    forall other | other in keep && other != ip ensures !Outranks(Restrict(ips, keep), other, ip) {
      assert !Outranks(ips, other, ip);
      PrecedesAmong(ips.keys, keep, ip, other);
    }
  }

  // ------------------------------------------------------------------- the run that breaks it

  /** The table remembers `n` failures of `ip`, not yet locked below the threshold, and every
      entry is older than `at`. */
  ghost predicate Guessing(l: Limiter, limits: Limits, ip: string, at: real, n: nat) {
    && Ok(l.ips)
    && (forall other | other in l.ips.vals && other != ip :: l.ips.vals[other].lastFailure < at)
    && (if ip in l.ips.vals then
          var st := l.ips.vals[ip];
          && st.failures == n && (n < Threshold(limits) ==> st.lockedUntil == 0.0)
          && at - limits.lockout <= st.lastFailure <= at && Top(l.ips, ip)
        else n == 0)
  }

  /** The sweep of the next attempt keeps what is remembered of `ip`. */
  lemma GuessSweeps(l: Limiter, limits: Limits, ip: string, at: real, n: nat)
    requires limits.maxTracked >= 2 && Guessing(l, limits, ip, at, n) && n < Threshold(limits) && 0.0 <= at
    ensures LockedFor(l, ip, at) == (l, 0.0) && Kept(l, Try(ip, at), limits, ip)
    ensures ip in l.ips.vals ==> ip in Swept(l.ips, limits, at).vals
  {
    if ip in l.ips.vals {
      var current := Current(l.ips, limits.lockout, at);
      TopOutranked(l.ips, ip, current);
      SurvivesTheSweep(l.ips, limits, at, ip);
    }
  }

  lemma GuessNoted(l: Limiter, kept: Dict<string, IpState>, limits: Limits, ip: string, at: real)
    requires limits.lockout > 0.0 && Ok(kept)
    requires forall other | other in kept.vals && other != ip :: kept.vals[other].lastFailure < at
    requires var st := StateOf(kept, ip); 0 <= st.failures < Threshold(limits) && st.lockedUntil == 0.0
    ensures Guessing(Noted(l, kept, ip, limits, at), limits, ip, at, StateOf(kept, ip).failures + 1)
  {
    PutOk(kept, ip, Failed(StateOf(kept, ip), limits, at));
  }

  lemma GuessKeeps(l: Limiter, limits: Limits, ip: string, at: real, n: nat)
    requires limits.maxTracked >= 2 && limits.lockout > 0.0 && 0.0 <= at
    requires Guessing(l, limits, ip, at, n) && n < Threshold(limits)
    ensures var e := Try(ip, at);
      Kept(l, e, limits, ip) && After(l, e, limits).1 && Guessing(After(l, e, limits).0, limits, ip, at, n + 1)
  {
    var swept := Swept(l.ips, limits, at);
    GuessSweeps(l, limits, ip, at, n);
    SweptForgets(l.ips, limits, at);
    assert StateOf(swept, ip).failures == n;
    GuessNoted(l, swept, limits, ip, at);
  }

  lemma RunCons(l: Limiter, e: Event, rest: seq<Event>, limits: Limits, ip: string, times: seq<real>, now: real)
    requires limits.maxTracked > 0 && Ok(l.ips) && now <= e.at && Kept(l, e, limits, ip) && !e.Success?
    requires Ok(After(l, e, limits).0.ips) && Run(After(l, e, limits).0, rest, limits, ip, e.at)
    ensures Run(l, [e] + rest, limits, ip, now)
    ensures Failures(l, [e] + rest, limits, ip, times)
         == Failures(After(l, e, limits).0, rest, limits, ip, Logged(times, l, e, limits, ip))
  {
    assert ([e] + rest)[1..] == rest;
  }

  lemma {:induction false} Guesses(l: Limiter, limits: Limits, ip: string, at: real, n: nat, times: seq<real>,
                                   now: real)
      returns (run: seq<Event>)
    requires limits.maxTracked >= 2 && limits.lockout > 0.0 && 0.0 <= at && now <= at
    requires Guessing(l, limits, ip, at, n) && n <= Threshold(limits)
    ensures Run(l, run, limits, ip, now)
    ensures var all := Failures(l, run, limits, ip, times);
      && |all| == |times| + Threshold(limits) - n && (forall i | 0 <= i < |times| :: all[i] == times[i])
      && (forall i | |times| <= i < |all| :: all[i] == at)
    decreases Threshold(limits) - n
  {
    if n == Threshold(limits) {
      run := [];
    } else {
      GuessKeeps(l, limits, ip, at, n);
      var rest := Guesses(After(l, Try(ip, at), limits).0, limits, ip, at, n + 1, times + [at], at);
      run := [Try(ip, at)] + rest;
      RunCons(l, Try(ip, at), rest, limits, ip, times, now);
    }
  }

  // ------------------------------------------------------------------------- the theorem

  /** What an attempt finds that is recorded. */
  lemma Unlocked(l: Limiter, e: Event, limits: Limits)
    requires limits.maxTracked > 0 && Ok(l.ips) && e.Try? && After(l, e, limits).1
    ensures var ips := LockedFor(l, e.ip, e.at).0.ips;
      && Ok(ips) && (forall other | other in ips.vals :: other in l.ips.vals && ips.vals[other] == l.ips.vals[other])
      && (e.ip in ips.vals ==> ips.vals[e.ip].lockedUntil <= e.at)
  {
    PopOk(l.ips, e.ip);
  }

  /** What is left when the cap evicts `ip` at an attempt. */
  lemma Evicted(l: Limiter, e: Event, limits: Limits, ip: string)
    requires limits.maxTracked > 0 && Ok(l.ips) && e.Try? && After(l, e, limits).1 && !Kept(l, e, limits, ip)
    ensures var ips := LockedFor(l, e.ip, e.at).0.ips;
      && Ok(ips) && Ok(Swept(ips, limits, e.at)) && ip !in Swept(ips, limits, e.at).vals
      && (forall other | other in Swept(ips, limits, e.at).vals ::
            other in l.ips.vals && Swept(ips, limits, e.at).vals[other] == l.ips.vals[other])
  {
    var ips := LockedFor(l, e.ip, e.at).0.ips;
    Unlocked(l, e, limits);
    SurvivesTheSweep(ips, limits, e.at, ip);
    SweptForgets(ips, limits, e.at);
  }

  /** An eviction a whole lockout after the last failure does no harm. */
  lemma LateEviction(l: Limiter, e: Event, limits: Limits, ip: string, times: seq<real>, now: real)
    requires limits.maxTracked > 0 && Ok(l.ips) && AddressInv(l.ips.vals, ip, times, limits, now) && 0.0 <= now <= e.at
    requires e.Try? && After(l, e, limits).1 && !Kept(l, e, limits, ip)
    requires times != [] ==> e.at - times[|times| - 1] >= limits.lockout
    ensures AddressInv(After(l, e, limits).0.ips.vals, ip, Logged(times, l, e, limits, ip), limits, e.at)
  {
    Evicted(l, e, limits, ip);
    var swept := Swept(LockedFor(l, e.ip, e.at).0.ips, limits, e.at).vals;
    assert AddressInv(swept, ip, times, limits, e.at);
    RecordedVals(l, e, limits);
    if e.ip == ip {
      RecordKeeps(swept, ip, times, limits, e.at);
    }
  }

  /** Who enters the table last is evicted last among those as old. */
  lemma LastOnTop(ips: Dict<string, IpState>, ip: string, st: IpState)
    requires Ok(ips) && ip !in ips.vals
             && forall other | other in ips.vals :: ips.vals[other].lastFailure <= st.lastFailure
    ensures Top(Put(ips, ip, st), ip)
  {
    var more := Put(ips, ip, st);
    PutOk(ips, ip, st);
    forall other | other in ips.vals ensures !Outranks(more, other, ip) {
      var j :| 0 <= j < |ips.keys| && ips.keys[j] == other;
      assert more.keys[|ips.keys|] == ip && more.keys[j] == other;
      PrecedesIndex(more.keys, |ips.keys|, j);
    }
  }

  /** After an eviction the address starts again from nothing. */
  lemma StartsAgain(l: Limiter, e: Event, limits: Limits, ip: string, later: real)
    requires limits.maxTracked > 0 && Ok(l.ips) && Recent(l.ips, e.at) && e.at < later <= e.at + limits.lockout
    requires e.Try? && After(l, e, limits).1 && !Kept(l, e, limits, ip)
    ensures Guessing(After(l, e, limits).0, limits, ip, later, if e.ip == ip then 1 else 0)
  {
    Evicted(l, e, limits, ip);
    AfterOk(l, e, limits);
    var swept := Swept(LockedFor(l, e.ip, e.at).0.ips, limits, e.at);
    RecordedVals(l, e, limits);
    if e.ip == ip {
      LastOnTop(swept, ip, Failed(StateOf(swept, ip), limits, e.at));
    }
  }

  lemma EarlyEviction(l: Limiter, e: Event, limits: Limits, ip: string, times: seq<real>)
    requires limits.maxTracked >= 2 && Ok(l.ips) && Recent(l.ips, e.at) && 0.0 <= e.at
    requires e.Try? && After(l, e, limits).1 && !Kept(l, e, limits, ip)
    requires times != [] && times[|times| - 1] <= e.at && e.at - times[|times| - 1] < limits.lockout
    ensures Ok(After(l, e, limits).0.ips)
    ensures Breakable(After(l, e, limits).0, limits, ip, Logged(times, l, e, limits, ip), e.at)
  {
    var last, k := times[|times| - 1], Threshold(limits);
    var later := e.at + (limits.lockout - (e.at - last)) / 2.0;
    AfterOk(l, e, limits);
    StartsAgain(l, e, limits, ip, later);
    var l', n, logged := After(l, e, limits).0, if e.ip == ip then 1 else 0, Logged(times, l, e, limits, ip);
    var run := Guesses(l', limits, ip, later, n, logged, e.at);
    var all := Failures(l', run, limits, ip, logged);
    assert |all| == |times| + k && all[|times| - 1] == logged[|times| - 1] == last;
    assert all[|times| - 1 + k] <= later;
    assert Crowds(all, limits);
  }

  /** At an attempt that is recorded, whoever makes it: some spared continuation breaks the
      window of `ip` iff the cap evicts `ip` there, less than a lockout after its last failure.
      (In a table with a single entry the cap evicts everybody at every attempt.) */
  lemma EvictionBreaksExactly(l: Limiter, e: Event, limits: Limits, ip: string, times: seq<real>, now: real)
    requires limits.maxTracked >= 2 && Ok(l.ips) && Recent(l.ips, now) && 0.0 <= now <= e.at
    requires AddressInv(l.ips.vals, ip, times, limits, now) && e.Try? && After(l, e, limits).1
    ensures Ok(After(l, e, limits).0.ips)
    ensures Breakable(After(l, e, limits).0, limits, ip, Logged(times, l, e, limits, ip), e.at)
            <==> !Kept(l, e, limits, ip) && times != [] && e.at - times[|times| - 1] < limits.lockout
  {
    AfterOk(l, e, limits);
    if !Kept(l, e, limits, ip) && times != [] && e.at - times[|times| - 1] < limits.lockout {
      EarlyEviction(l, e, limits, ip, times);
    } else {
      if Kept(l, e, limits, ip) {
        EventKeeps(l, e, limits, ip, times, now);
      } else {
        LateEviction(l, e, limits, ip, times, now);
      }
      NotBreakable(After(l, e, limits).0, limits, ip, Logged(times, l, e, limits, ip), e.at);
    }
  }

  lemma NotBreakable(l: Limiter, limits: Limits, ip: string, times: seq<real>, now: real)
    requires limits.maxTracked > 0 && Ok(l.ips) && 0.0 <= now && AddressInv(l.ips.vals, ip, times, limits, now)
    ensures !Breakable(l, limits, ip, times, now)
  {
    forall run | Run(l, run, limits, ip, now) ensures !Crowds(Failures(l, run, limits, ip, times), limits) {
      RunKeeps(l, run, limits, ip, times, now);
    }
  }

  /** Every event keeps the table free of entries from the future. */
  lemma EventRecent(l: Limiter, e: Event, limits: Limits, now: real)
    requires limits.maxTracked > 0 && Ok(l.ips) && Recent(l.ips, now) && now <= e.at
    ensures Recent(After(l, e, limits).0.ips, e.at)
  {
    PopOk(l.ips, e.ip);
    if e.Try? && After(l, e, limits).1 {
      Unlocked(l, e, limits);
      SweptForgets(LockedFor(l, e.ip, e.at).0.ips, limits, e.at);
      RecordedVals(l, e, limits);
    }
  }
}
