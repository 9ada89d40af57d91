/** The delay all addresses share: it depends on how many failures, of whatever addresses, were
    recorded since the last success, or since the delay was last asked for after a quiet lockout. */
module RateGlobal {
  import opened PyDict
  import opened LimiterSpec
  import opened RateWindow

  /** What happens to a limiter, including that its delay is asked for. */
  datatype Moment = Of(e: Event) | Ask(at: real)

  function Time(m: Moment): real {
    match m
    case Of(e) => e.at
    case Ask(at) => at
  }

  function Later(l: Limiter, m: Moment, limits: Limits, backoff: Backoff): Limiter
    requires limits.maxTracked > 0 && Ok(l.ips)
  {
    match m
    case Of(e) => After(l, e, limits).0
    case Ask(at) => GlobalDelay(l, backoff, at).0
  }

  /** The times of the failures that count, after one more moment. */
  function Counted(recent: seq<real>, l: Limiter, m: Moment, limits: Limits): seq<real>
    requires limits.maxTracked > 0 && Ok(l.ips)
  {
    match m
    case Of(e) => if e.Success? then [] else if After(l, e, limits).1 then recent + [e.at] else recent
    case Ask(at) => Still(recent, limits, at)
  }

  /** Those that count at `now`: all of them, or none a lockout after the last. */
  function Still(recent: seq<real>, limits: Limits, now: real): seq<real> {
    if recent != [] && now >= recent[|recent| - 1] + limits.lockout then [] else recent
  }

  predicate Counts(l: Limiter, recent: seq<real>, limits: Limits) {
    && l.globalFailures == |recent|
    && l.globalResetAt == (if recent == [] then 0.0 else recent[|recent| - 1] + limits.lockout)
    && forall i | 0 <= i < |recent| :: recent[i] >= 0.0
  }

  lemma EventCounts(l: Limiter, e: Event, limits: Limits, recent: seq<real>)
    requires limits.maxTracked > 0 && limits.lockout > 0.0 && Ok(l.ips) && Counts(l, recent, limits) && 0.0 <= e.at
    ensures var l', recorded := After(l, e, limits).0, After(l, e, limits).1;
      Counts(l', if e.Success? then [] else if recorded then recent + [e.at] else recent, limits)
  {
  }

  lemma AskCounts(l: Limiter, limits: Limits, backoff: Backoff, recent: seq<real>, now: real)
    requires limits.lockout > 0.0 && Counts(l, recent, limits)
    ensures Counts(GlobalDelay(l, backoff, now).0, Still(recent, limits, now), limits)
    ensures GlobalDelay(l, backoff, now).0.ips == l.ips
  {
  }

  lemma MomentCounts(l: Limiter, m: Moment, limits: Limits, backoff: Backoff, recent: seq<real>)
    requires limits.maxTracked > 0 && limits.lockout > 0.0 && Ok(l.ips) && Counts(l, recent, limits) && 0.0 <= Time(m)
    ensures Ok(Later(l, m, limits, backoff).ips)
    ensures Counts(Later(l, m, limits, backoff), Counted(recent, l, m, limits), limits)
  {
    match m
    case Of(e) =>
      AfterOk(l, e, limits);
      EventCounts(l, e, limits, recent);
    case Ask(at) => AskCounts(l, limits, backoff, recent, at);
  }

  ghost predicate Run(l: Limiter, run: seq<Moment>, limits: Limits, backoff: Backoff, now: real)
    requires limits.maxTracked > 0 && Ok(l.ips)
    decreases |run|
  {
    run == [] ||
    (now <= Time(run[0]) && Ok(Later(l, run[0], limits, backoff).ips)
     && Run(Later(l, run[0], limits, backoff), run[1..], limits, backoff, Time(run[0])))
  }

  ghost function End(l: Limiter, run: seq<Moment>, limits: Limits, backoff: Backoff, now: real): Limiter
    requires limits.maxTracked > 0 && Ok(l.ips) && Run(l, run, limits, backoff, now)
    decreases |run|
  {
    if run == [] then l else End(Later(l, run[0], limits, backoff), run[1..], limits, backoff, Time(run[0]))
  }

  ghost function Recent(l: Limiter, run: seq<Moment>, limits: Limits, backoff: Backoff, now: real, recent: seq<real>)
    : seq<real>
    requires limits.maxTracked > 0 && Ok(l.ips) && Run(l, run, limits, backoff, now)
    decreases |run|
  {
    if run == [] then recent
    else
      Recent(Later(l, run[0], limits, backoff), run[1..], limits, backoff, Time(run[0]),
             Counted(recent, l, run[0], limits))
  }

  lemma {:induction false} RunCounts(l: Limiter, run: seq<Moment>, limits: Limits, backoff: Backoff, now: real,
                                     recent: seq<real>)
    requires limits.maxTracked > 0 && limits.lockout > 0.0 && Ok(l.ips) && 0.0 <= now
    requires Run(l, run, limits, backoff, now) && Counts(l, recent, limits)
    ensures Counts(End(l, run, limits, backoff, now), Recent(l, run, limits, backoff, now, recent), limits)
    decreases |run|
  {
    if run != [] {
      MomentCounts(l, run[0], limits, backoff, recent);
      RunCounts(Later(l, run[0], limits, backoff), run[1..], limits, backoff, Time(run[0]),
                Counted(recent, l, run[0], limits));
    }
  }

  /** No delay iff at most `threshold` of `n` failures count; with more it doubles with each, up to
      the longest one. */
  predicate Delays(delay: real, n: nat, backoff: Backoff) {
    && (delay == 0.0 <==> n <= backoff.threshold)
    && (n > backoff.threshold ==>
          var doubled := Pow2(if n - backoff.threshold <= 16 then n - backoff.threshold else 16) as real;
          delay == if doubled <= backoff.most then doubled else backoff.most)
  }

  lemma DelayNow(l: Limiter, recent: seq<real>, limits: Limits, backoff: Backoff, now: real)
    requires limits.lockout > 0.0 && backoff.most > 0.0 && Counts(l, recent, limits)
    ensures Delays(GlobalDelay(l, backoff, now).1, |Still(recent, limits, now)|, backoff)
  {
    var excess := |Still(recent, limits, now)| - backoff.threshold;
    assert GlobalDelay(l, backoff, now).0.globalFailures == |Still(recent, limits, now)|;
    if excess > 0 {
      PowersArePositive(if excess <= 16 then excess else 16);
    }
  }

  lemma DelayExactly(run: seq<Moment>, limits: Limits, backoff: Backoff, now: real)
    requires limits.maxTracked > 0 && limits.lockout > 0.0 && backoff.most > 0.0
    requires Run(START, run, limits, backoff, 0.0)
    ensures Delays(GlobalDelay(End(START, run, limits, backoff, 0.0), backoff, now).1,
                   |Still(Recent(START, run, limits, backoff, 0.0, []), limits, now)|, backoff)
  {
    RunCounts(START, run, limits, backoff, 0.0, []);
    DelayNow(End(START, run, limits, backoff, 0.0), Recent(START, run, limits, backoff, 0.0, []), limits, backoff, now);
  }

  lemma {:induction false} PowersArePositive(n: nat)
    ensures Pow2(n) > 0
  {
    if n > 0 {
      PowersArePositive(n - 1);
    }
  }
}
