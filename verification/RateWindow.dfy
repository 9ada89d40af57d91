/** The sliding window of the limiter: more than `maxFailures` recorded failures of one
    address always span at least the lockout. */
module RateWindow {
  import opened PyDict
  import opened LimiterSpec
  import opened RateRank

  /** A guarded attempt that fails, a bare look at the lock, or a success of some address. */
  datatype Event = Try(ip: string, at: real) | Look(ip: string, at: real) | Success(ip: string, at: real)

  function After(l: Limiter, e: Event, limits: Limits): (Limiter, bool)
    requires limits.maxTracked > 0 && Ok(l.ips)
  {
    match e
    case Try(ip, at) => Attempt(l, ip, limits, at)
    case Look(ip, at) => (LockedFor(l, ip, at).0, false)
    case Success(ip, _) => (RecordSuccess(l, ip), false)
  }

  lemma AfterOk(l: Limiter, e: Event, limits: Limits)
    requires limits.maxTracked > 0 && Ok(l.ips)
    ensures Ok(After(l, e, limits).0.ips)
  {
    StepsOk(l, e.ip, limits, e.at);
    StepsOk(LockedFor(l, e.ip, e.at).0, e.ip, limits, e.at);
  }

  /** The hard cap spares `ip` at this event: if the event sweeps, at most `maxTracked - 2`
      current addresses outrank it. */
  predicate Kept(l: Limiter, e: Event, limits: Limits, ip: string)
    requires limits.maxTracked > 0 && Ok(l.ips)
  {
    e.Try? && After(l, e, limits).1 ==>
      var ips := LockedFor(l, e.ip, e.at).0.ips;
      var current := Restrict(ips, Current(ips, limits.lockout, e.at));
      ip in current.vals ==> |Outranking(current, ip)| < limits.maxTracked - 1
  }

  /** So it is for an address that is current at an event that sweeps: it is still there after. */
  lemma KeptSurvives(l: Limiter, e: Event, limits: Limits, ip: string)
    requires limits.maxTracked > 0 && Ok(l.ips) && e.Try? && After(l, e, limits).1
    requires ip in LockedFor(l, e.ip, e.at).0.ips.vals
    ensures Ok(LockedFor(l, e.ip, e.at).0.ips)
    ensures Kept(l, e, limits, ip) && !Stale(LockedFor(l, e.ip, e.at).0.ips.vals[ip], limits.lockout, e.at)
            ==> ip in Swept(LockedFor(l, e.ip, e.at).0.ips, limits, e.at).vals
  {
    PopOk(l.ips, e.ip);
    SurvivesTheSweep(LockedFor(l, e.ip, e.at).0.ips, limits, e.at, ip);
  }

  /** With room in the table it is spared. */
  lemma RoomKeeps(l: Limiter, e: Event, limits: Limits, ip: string)
    requires limits.maxTracked > 0 && Ok(l.ips) && |l.ips.keys| < limits.maxTracked
    ensures Kept(l, e, limits, ip)
  {
    if e.Try? {
      var ips := LockedFor(l, e.ip, e.at).0.ips;
      PopOk(l.ips, e.ip);
      if e.ip in l.ips.vals {
        PopShrinks(l.ips, e.ip);
      }
      var current := Restrict(ips, Current(ips, limits.lockout, e.at));
      RestrictOk(ips, Current(ips, limits.lockout, e.at));
      if ip in current.vals {
        OutrankingCount(current, ip);
      }
    }
  }

  // --------------------------------------------------------------------- the invariant

  /** How many failures the limiter tolerates; a configured maximum below 1 acts like 1. */
  function Threshold(limits: Limits): nat
    ensures Threshold(limits) >= 1
  {
    if limits.maxFailures < 1 then 1 else limits.maxFailures
  }

  predicate Ordered(times: seq<real>) {
    forall i, j | 0 <= i <= j < |times| :: times[i] <= times[j]
  }

  /** Any k + 1 consecutive times span at least `lockout`. */
  predicate Spaced(times: seq<real>, k: nat, lockout: real) {
    forall i | 0 <= i < |times| - k :: times[i + k] - times[i] >= lockout
  }

  /** What the table says about an address whose recorded failures are `times`. A count below
      the threshold began a whole lockout after the failure before it. */
  predicate Tracks(st: IpState, times: seq<real>, k: nat, lockout: real) {
    var c := st.failures;
    && times != [] && c >= 1 && st.lastFailure == times[|times| - 1]
    && (c < k ==>
          && st.lockedUntil == 0.0 && c <= |times|
          && (c < |times| ==> times[|times| - c] - times[|times| - c - 1] >= lockout))
    && (c >= k ==> st.lockedUntil == st.lastFailure + lockout)
  }

  /** An address the table has forgotten failed last a whole lockout ago, or never. */
  predicate Forgotten(times: seq<real>, lockout: real, now: real) {
    times != [] ==> times[|times| - 1] + lockout <= now
  }

  predicate AddressInv(ips: map<string, IpState>, ip: string, times: seq<real>, limits: Limits, now: real) {
    && Ordered(times) && (times != [] ==> times[|times| - 1] <= now)
    && Spaced(times, Threshold(limits), limits.lockout)
    && (if ip in ips then Tracks(ips[ip], times, Threshold(limits), limits.lockout)
        else Forgotten(times, limits.lockout, now))
  }

  /** Looking at a lock forgets it only when it has elapsed. */
  lemma LookKeeps(l: Limiter, who: string, limits: Limits, at: real, ip: string, times: seq<real>, now: real)
    requires AddressInv(l.ips.vals, ip, times, limits, now) && 0.0 <= now <= at
    ensures AddressInv(LockedFor(l, who, at).0.ips.vals, ip, times, limits, at)
  {
  }

  /** A sweep forgets an address only a whole lockout after its last failure. */
  lemma SweepKeeps(ips: Dict<string, IpState>, limits: Limits, at: real, ip: string, times: seq<real>)
    requires limits.maxTracked > 0 && Ok(ips) && AddressInv(ips.vals, ip, times, limits, at)
    requires ip in ips.vals && !Stale(ips.vals[ip], limits.lockout, at) ==> ip in Swept(ips, limits, at).vals
    ensures AddressInv(Swept(ips, limits, at).vals, ip, times, limits, at)
  {
    SweptForgets(ips, limits, at);
  }

  /** An attempt can be recorded only a whole lockout after the k-th failure before it. */
  lemma RecordedInTime(ips: map<string, IpState>, ip: string, times: seq<real>, limits: Limits, at: real)
    requires AddressInv(ips, ip, times, limits, at)
    requires ip in ips ==> ips[ip].lockedUntil <= at
    ensures Spaced(times + [at], Threshold(limits), limits.lockout)
  {
    var k := Threshold(limits);
    if |times| >= k {
      var i := |times| - k;
      if ip in ips && ips[ip].failures < k {
        var c := ips[ip].failures;
        assert times[i] <= times[|times| - c - 1] && times[|times| - c] <= times[|times| - 1];
      } else {
        assert times[i] <= times[|times| - 1];
      }
    }
  }

  lemma RecordKeeps(ips: map<string, IpState>, ip: string, times: seq<real>, limits: Limits, at: real)
    requires AddressInv(ips, ip, times, limits, at)
    requires ip in ips ==> ips[ip].lockedUntil <= at
    ensures var st := if ip in ips then ips[ip] else IpState(0, 0.0, 0.0);
      AddressInv(ips[ip := Failed(st, limits, at)], ip, times + [at], limits, at)
  {
    RecordedInTime(ips, ip, times, limits, at);
    var c := if ip in ips then ips[ip].failures else 0;
    var more := times + [at];
    assert forall i | 0 <= i < |times| :: more[i] == times[i];
    if 0 < c < Threshold(limits) {
      assert more[|more| - (c + 1)] == times[|times| - c];
    }
  }

  /** The failures of `ip` recorded by one event, after those recorded before. */
  function Logged(times: seq<real>, l: Limiter, e: Event, limits: Limits, ip: string): seq<real>
    requires limits.maxTracked > 0 && Ok(l.ips)
  {
    if e.ip == ip && After(l, e, limits).1 then times + [e.at] else times
  }

  lemma EventKeeps(l: Limiter, e: Event, limits: Limits, ip: string, times: seq<real>, now: real)
    requires limits.maxTracked > 0 && Ok(l.ips) && AddressInv(l.ips.vals, ip, times, limits, now)
    requires 0.0 <= now <= e.at && Kept(l, e, limits, ip) && e != Success(ip, e.at)
    ensures AddressInv(After(l, e, limits).0.ips.vals, ip, Logged(times, l, e, limits, ip), limits, e.at)
  {
    PopOk(l.ips, e.ip);
    if !e.Success? {
      LookKeeps(l, e.ip, limits, e.at, ip, times, now);
    }
    if e.Try? && After(l, e, limits).1 {
      TryKeeps(l, e, limits, ip, times);
    }
  }

  /** An attempt that is recorded, once elapsed locks are out of the way. */
  lemma TryKeeps(l: Limiter, e: Event, limits: Limits, ip: string, times: seq<real>)
    requires limits.maxTracked > 0 && Ok(l.ips) && e.Try? && After(l, e, limits).1 && Kept(l, e, limits, ip)
    requires AddressInv(LockedFor(l, e.ip, e.at).0.ips.vals, ip, times, limits, e.at)
    ensures AddressInv(After(l, e, limits).0.ips.vals, ip, Logged(times, l, e, limits, ip), limits, e.at)
  {
    TrySweeps(l, e, limits, ip, times);
    var swept := Swept(LockedFor(l, e.ip, e.at).0.ips, limits, e.at).vals;
    RecordedVals(l, e, limits);
    if e.ip == ip {
      RecordKeeps(swept, ip, times, limits, e.at);
    }
  }

  lemma TrySweeps(l: Limiter, e: Event, limits: Limits, ip: string, times: seq<real>)
    requires limits.maxTracked > 0 && Ok(l.ips) && e.Try? && After(l, e, limits).1 && Kept(l, e, limits, ip)
    requires AddressInv(LockedFor(l, e.ip, e.at).0.ips.vals, ip, times, limits, e.at)
    ensures var ips := LockedFor(l, e.ip, e.at).0.ips;
      && Ok(ips) && AddressInv(Swept(ips, limits, e.at).vals, ip, times, limits, e.at)
      && (ip in Swept(ips, limits, e.at).vals ==> ip in ips.vals && Swept(ips, limits, e.at).vals[ip] == ips.vals[ip])
      && (e.ip in ips.vals ==> ips.vals[e.ip].lockedUntil <= e.at)
  {
    var ips := LockedFor(l, e.ip, e.at).0.ips;
    PopOk(l.ips, e.ip);
    if ip in ips.vals {
      KeptSurvives(l, e, limits, ip);
    }
    SweepKeeps(ips, limits, e.at, ip, times);
    SweptForgets(ips, limits, e.at);
  }

  /** A recorded attempt changes the entry of its own address, after the sweep. */
  lemma RecordedVals(l: Limiter, e: Event, limits: Limits)
    requires limits.maxTracked > 0 && Ok(l.ips) && e.Try? && After(l, e, limits).1
    ensures var ips := LockedFor(l, e.ip, e.at).0.ips;
      && Ok(ips)
      && var swept := Swept(ips, limits, e.at);
         After(l, e, limits).0.ips.vals == swept.vals[e.ip := Failed(StateOf(swept, e.ip), limits, e.at)]
  {
    PopOk(l.ips, e.ip);
  }

  // -------------------------------------------------------------------------- runs

  /** `run` happens at non-decreasing times from `now` on; the cap spares `ip`, and `ip` has no success. */
  ghost predicate Run(l: Limiter, run: seq<Event>, limits: Limits, ip: string, now: real)
    requires limits.maxTracked > 0 && Ok(l.ips)
    decreases |run|
  {
    run == [] ||
    (AfterOk(l, run[0], limits);
     && now <= run[0].at && Kept(l, run[0], limits, ip) && run[0] != Success(ip, run[0].at)
     && Run(After(l, run[0], limits).0, run[1..], limits, ip, run[0].at))
  }

  /** The times of the recorded failures of `ip` in a run. */
  ghost function Failures(l: Limiter, run: seq<Event>, limits: Limits, ip: string, times: seq<real>): seq<real>
    requires limits.maxTracked > 0 && Ok(l.ips)
    decreases |run|
  {
    if run == [] then times
    else
      AfterOk(l, run[0], limits);
      Failures(After(l, run[0], limits).0, run[1..], limits, ip, Logged(times, l, run[0], limits, ip))
  }

  lemma {:induction false} RunKeeps(l: Limiter, run: seq<Event>, limits: Limits, ip: string, times: seq<real>,
                                    now: real)
    requires limits.maxTracked > 0 && Ok(l.ips) && 0.0 <= now
    requires AddressInv(l.ips.vals, ip, times, limits, now) && Run(l, run, limits, ip, now)
    ensures var all := Failures(l, run, limits, ip, times);
      Ordered(all) && Spaced(all, Threshold(limits), limits.lockout)
    decreases |run|
  {
    if run != [] {
      AfterOk(l, run[0], limits);
      EventKeeps(l, run[0], limits, ip, times, now);
      RunKeeps(After(l, run[0], limits).0, run[1..], limits, ip, Logged(times, l, run[0], limits, ip), run[0].at);
    }
  }

  lemma Apart(times: seq<real>, k: nat, lockout: real, i: nat, j: nat)
    requires Ordered(times) && Spaced(times, k, lockout) && i + k <= j < |times|
    ensures times[j] - times[i] >= lockout
  {
    assert times[i + k] <= times[j];
  }

  /** Any `maxFailures` + 1 consecutive recorded failures of one address span at least the
      lockout: across elapsed locks, sweeps triggered by other addresses, and restarts of the
      count. So no half-open window of that length holds more than `maxFailures` of them. */
  lemma SlidingWindow(run: seq<Event>, limits: Limits, ip: string, from: real)
    requires limits.maxTracked > 0 && Run(START, run, limits, ip, 0.0)
    ensures var times, k := Failures(START, run, limits, ip, []), Threshold(limits);
      && (forall i | 0 <= i < |times| - k :: times[i + k] - times[i] >= limits.lockout)
      && (forall i, j | 0 <= i <= j < |times| && from <= times[i] && times[j] < from + limits.lockout :: j - i < k)
  {
    RunKeeps(START, run, limits, ip, [], 0.0);
    var times, k := Failures(START, run, limits, ip, []), Threshold(limits);
    forall i, j | 0 <= i <= j < |times| && from <= times[i] && times[j] < from + limits.lockout ensures j - i < k {
      if j - i >= k {
        Apart(times, k, limits.lockout, i, j);
      }
    }
  }
}
