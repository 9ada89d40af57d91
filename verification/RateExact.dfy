/** When exactly the limiter refuses: an address spared by the cap is locked iff its last streak
    of failures reached the threshold less than a lockout ago. A success starts it over. */
module RateExact {
  import opened PyDict
  import opened LimiterSpec
  import opened RateWindow

  /** How many failures in a row count at the end of `times`: a streak starts anew after a lock,
      or after a pause longer than the lockout. */
  function Streak(times: seq<real>, k: nat, lockout: real): nat {
    var n := |times|;
    if n == 0 then 0
    else if n == 1 then 1
    else
      var c := Streak(times[..n - 1], k, lockout);
      if c >= k || times[n - 1] - times[n - 2] > lockout then 1 else c + 1
  }

  lemma StreakSnoc(times: seq<real>, at: real, k: nat, lockout: real)
    ensures Streak(times + [at], k, lockout)
         == if times == [] || Streak(times, k, lockout) >= k || at - times[|times| - 1] > lockout then 1
            else Streak(times, k, lockout) + 1
  {
    assert (times + [at])[..|times|] == times;
  }

  /** The table says about `ip` what the times of its failures say. */
  predicate Exact(ips: map<string, IpState>, ip: string, times: seq<real>, limits: Limits, now: real) {
    var c := Streak(times, Threshold(limits), limits.lockout);
    && (times != [] ==> 0.0 <= times[|times| - 1] <= now)
    && (if ip in ips then
          && times != [] && ips[ip].failures == c && ips[ip].lastFailure == times[|times| - 1]
          && ips[ip].lockedUntil == (if c >= Threshold(limits) then times[|times| - 1] + limits.lockout else 0.0)
        else
          times != [] ==>
            && now >= times[|times| - 1] + limits.lockout
            && (c < Threshold(limits) ==> now > times[|times| - 1] + limits.lockout))
  }

  lemma LookExact(l: Limiter, who: string, limits: Limits, at: real, ip: string, times: seq<real>, now: real)
    requires limits.lockout > 0.0 && Exact(l.ips.vals, ip, times, limits, now) && 0.0 <= now <= at
    ensures Exact(LockedFor(l, who, at).0.ips.vals, ip, times, limits, at)
    ensures ip == who && ip in LockedFor(l, who, at).0.ips.vals && LockedFor(l, who, at).1 <= 0.0
            ==> Streak(times, Threshold(limits), limits.lockout) < Threshold(limits)
  {
  }

  lemma SweepExact(ips: Dict<string, IpState>, limits: Limits, at: real, ip: string, times: seq<real>)
    requires limits.maxTracked > 0 && Ok(ips) && Exact(ips.vals, ip, times, limits, at)
    requires ip in ips.vals && !Stale(ips.vals[ip], limits.lockout, at) ==> ip in Swept(ips, limits, at).vals
    ensures Exact(Swept(ips, limits, at).vals, ip, times, limits, at)
    ensures ip in Swept(ips, limits, at).vals ==> ip in ips.vals && !Stale(ips.vals[ip], limits.lockout, at)
  {
    SweptForgets(ips, limits, at);
  }

  lemma RecordExact(ips: map<string, IpState>, ip: string, times: seq<real>, limits: Limits, at: real)
    requires 0.0 <= at && Exact(ips, ip, times, limits, at)
    requires ip in ips ==>
               && Streak(times, Threshold(limits), limits.lockout) < Threshold(limits)
               && at - times[|times| - 1] <= limits.lockout
    ensures var st := if ip in ips then ips[ip] else IpState(0, 0.0, 0.0);
      Exact(ips[ip := Failed(st, limits, at)], ip, times + [at], limits, at)
  {
    StreakSnoc(times, at, Threshold(limits), limits.lockout);
  }

  /** The failures of `ip` recorded since its last success, after one more event. */
  function Unforgiven(times: seq<real>, l: Limiter, e: Event, limits: Limits, ip: string): seq<real>
    requires limits.maxTracked > 0 && Ok(l.ips)
  {
    if e.Success? && e.ip == ip then [] else Logged(times, l, e, limits, ip)
  }

  lemma EventExact(l: Limiter, e: Event, limits: Limits, ip: string, times: seq<real>, now: real)
    requires limits.maxTracked > 0 && limits.lockout > 0.0 && Ok(l.ips) && Exact(l.ips.vals, ip, times, limits, now)
    requires 0.0 <= now <= e.at && Kept(l, e, limits, ip)
    ensures Exact(After(l, e, limits).0.ips.vals, ip, Unforgiven(times, l, e, limits, ip), limits, e.at)
  {
    PopOk(l.ips, e.ip);
    if !e.Success? {
      LookExact(l, e.ip, limits, e.at, ip, times, now);
    }
    if e.Try? && After(l, e, limits).1 {
      TryExact(l, e, limits, ip, times);
    }
  }

  lemma TryExact(l: Limiter, e: Event, limits: Limits, ip: string, times: seq<real>)
    requires limits.maxTracked > 0 && limits.lockout > 0.0 && Ok(l.ips) && 0.0 <= e.at
    requires e.Try? && After(l, e, limits).1 && Kept(l, e, limits, ip)
    requires Exact(LockedFor(l, e.ip, e.at).0.ips.vals, ip, times, limits, e.at)
    requires ip == e.ip && ip in LockedFor(l, e.ip, e.at).0.ips.vals ==>
               Streak(times, Threshold(limits), limits.lockout) < Threshold(limits)
    ensures Exact(After(l, e, limits).0.ips.vals, ip, Logged(times, l, e, limits, ip), limits, e.at)
  {
    var ips := LockedFor(l, e.ip, e.at).0.ips;
    PopOk(l.ips, e.ip);
    if ip in ips.vals {
      KeptSurvives(l, e, limits, ip);
    }
    SweepExact(ips, limits, e.at, ip, times);
    SweptForgets(ips, limits, e.at);
    RecordedVals(l, e, limits);
    if e.ip == ip {
      RecordExact(Swept(ips, limits, e.at).vals, ip, times, limits, e.at);
    }
  }

  /** `run` happens at non-decreasing times from `now` on, and the cap spares `ip`. */
  ghost predicate Course(l: Limiter, run: seq<Event>, limits: Limits, ip: string, now: real)
    requires limits.maxTracked > 0 && Ok(l.ips)
    decreases |run|
  {
    run == [] ||
    (AfterOk(l, run[0], limits);
     && now <= run[0].at && Kept(l, run[0], limits, ip)
     && Course(After(l, run[0], limits).0, run[1..], limits, ip, run[0].at))
  }

  /** The times of the failures of `ip` recorded in a run since its last success. */
  ghost function Since(l: Limiter, run: seq<Event>, limits: Limits, ip: string, times: seq<real>): seq<real>
    requires limits.maxTracked > 0 && Ok(l.ips)
    decreases |run|
  {
    if run == [] then times
    else
      AfterOk(l, run[0], limits);
      Since(After(l, run[0], limits).0, run[1..], limits, ip, Unforgiven(times, l, run[0], limits, ip))
  }

  ghost function End(l: Limiter, run: seq<Event>, limits: Limits): Limiter
    requires limits.maxTracked > 0 && Ok(l.ips)
    decreases |run|
  {
    if run == [] then l
    else
      AfterOk(l, run[0], limits);
      End(After(l, run[0], limits).0, run[1..], limits)
  }

  function Latest(run: seq<Event>, now: real): real {
    if run == [] then now else run[|run| - 1].at
  }

  lemma {:induction false} RunExact(l: Limiter, run: seq<Event>, limits: Limits, ip: string, times: seq<real>,
                                    now: real)
    requires limits.maxTracked > 0 && limits.lockout > 0.0 && Ok(l.ips) && 0.0 <= now
    requires Exact(l.ips.vals, ip, times, limits, now) && Course(l, run, limits, ip, now)
    ensures Exact(End(l, run, limits).ips.vals, ip, Since(l, run, limits, ip, times), limits, Latest(run, now))
    ensures now <= Latest(run, now)
    decreases |run|
  {
    if run != [] {
      AfterOk(l, run[0], limits);
      EventExact(l, run[0], limits, ip, times, now);
      RunExact(After(l, run[0], limits).0, run[1..], limits, ip, Unforgiven(times, l, run[0], limits, ip), run[0].at);
      assert Latest(run, now) == Latest(run[1..], run[0].at);
    }
  }

  /** After every run an attempt is refused iff the streak at the end of the failures recorded
      since the last success reached the threshold and the last of them is less than a lockout
      ago; and the caller is told exactly how long to wait. */
  lemma LockedExactly(run: seq<Event>, limits: Limits, ip: string, at: real)
    requires limits.maxTracked > 0 && limits.lockout > 0.0 && Latest(run, 0.0) <= at
    requires Course(START, run, limits, ip, 0.0)
    ensures var times, k := Since(START, run, limits, ip, []), Threshold(limits);
      LockedFor(End(START, run, limits), ip, at).1
      == if times != [] && Streak(times, k, limits.lockout) >= k && at < times[|times| - 1] + limits.lockout
         then times[|times| - 1] + limits.lockout - at else 0.0
  {
    RunExact(START, run, limits, ip, [], 0.0);
  }

  function Only(ip: string, st: IpState, n: int, reset: real): Limiter {
    Limiter(Dict([ip], map[ip := st]), n, reset)
  }

  lemma OneMoreFailure(ip: string, st: IpState, n: int, reset: real, limits: Limits, at: real)
    requires limits.maxTracked >= 2 && st.lockedUntil == 0.0 && 0.0 <= at && at - st.lastFailure <= limits.lockout
    ensures Ok(Only(ip, st, n, reset).ips)
    ensures Attempt(Only(ip, st, n, reset), ip, limits, at)
            == (Only(ip, Failed(st, limits, at), n + 1, at + limits.lockout), true)
  {
    var ips := Only(ip, st, n, reset).ips;
    assert Current(ips, limits.lockout, at) == ips.vals.Keys;
    RestrictAll(ips);
    assert Swept(ips, limits, at) == ips;
    assert Put(ips, ip, Failed(st, limits, at)).vals == map[ip := Failed(st, limits, at)];
  }

  lemma FirstFailure(ip: string, limits: Limits)
    requires limits.maxTracked >= 1 && limits.maxFailures > 1
    ensures Attempt(START, ip, limits, 0.0) == (Only(ip, IpState(1, 0.0, 0.0), 1, limits.lockout), true)
  {
    assert Swept(START.ips, limits, 0.0).vals == map[];
    assert Swept(START.ips, limits, 0.0).keys == [];
    assert Put(Empty(), ip, IpState(1, 0.0, 0.0)) == Dict([ip], map[ip := IpState(1, 0.0, 0.0)]);
  }

  /** So failures spread over more than one window can lock: three are tolerated, no 900 seconds
      hold more than two of these, and the third one locks all the same. */
  lemma SlowFailuresLock(limits: Limits) returns (l1: Limiter, l2: Limiter, l3: Limiter)
    requires limits.maxFailures == 3 && limits.lockout == 900.0 && limits.maxTracked >= 2
    ensures Attempt(START, "a", limits, 0.0) == (l1, true) && Ok(l1.ips)
    ensures Attempt(l1, "a", limits, 800.0) == (l2, true) && Ok(l2.ips)
    ensures Attempt(l2, "a", limits, 1600.0) == (l3, true) && Ok(l3.ips)
    ensures !Attempt(l3, "a", limits, 1601.0).1
  {
    l1 := Only("a", IpState(1, 0.0, 0.0), 1, 900.0);
    l2 := Only("a", IpState(2, 0.0, 800.0), 2, 1700.0);
    l3 := Only("a", IpState(3, 2500.0, 1600.0), 3, 2500.0);
    FirstFailure("a", limits);
    OneMoreFailure("a", IpState(1, 0.0, 0.0), 1, 900.0, limits, 800.0);
    OneMoreFailure("a", IpState(2, 0.0, 800.0), 2, 1700.0, limits, 1600.0);
  }
}
