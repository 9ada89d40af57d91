/** The per-address limiter of the OAuth server, and the register middleware that reuses it. */
module RateLimiter {
  import opened PyDict
  import Spec = LimiterSpec
  import opened LimiterSpec

  class LoginRateLimiter {
    const limits: Limits
    const backoff: Backoff
    var ips: Dict<string, IpState>
    var globalFailures: int
    var globalResetAt: real

    ghost predicate Valid()
      reads this
    {
      Ok(ips) && limits.maxTracked > 0
    }

    ghost function View(): Limiter
      reads this
    {
      Limiter(ips, globalFailures, globalResetAt)
    }

    constructor (limits: Limits, backoff: Backoff)
      requires limits.maxTracked > 0
      ensures Valid() && this.limits == limits && this.backoff == backoff && View() == START
    {
      this.limits, this.backoff := limits, backoff;
      ips, globalFailures, globalResetAt := Empty(), 0, 0.0;
    }

    method Failures(ip: string) returns (n: int)
      ensures n == StateOf(ips, ip).failures
    {
      n := if ip in ips.vals then ips.vals[ip].failures else 0;
    }

    method LockedFor(ip: string, now: real) returns (remaining: real)
      requires Valid()
      modifies this`ips
      ensures Valid() && (View(), remaining) == Spec.LockedFor(old(View()), ip, now)
    {
      if ip !in ips.vals {
        return 0.0;
      }
      var st := ips.vals[ip];
      remaining := st.lockedUntil - now;
      if remaining <= 0.0 {
        if st.lockedUntil != 0.0 {
          PopOk(ips, ip);
          ips := Pop(ips, ip);
        }
        return 0.0;
      }
    }

    /** How long to wait before any password is evaluated. */
    method GlobalDelay(now: real) returns (delay: real)
      requires Valid()
      modifies this`globalFailures, this`globalResetAt
      ensures Valid() && (View(), delay) == Spec.GlobalDelay(old(View()), backoff, now)
    {
      if globalResetAt != 0.0 && now >= globalResetAt {
        globalFailures, globalResetAt := 0, 0.0;
      }
      var excess := globalFailures - backoff.threshold;
      if excess <= 0 {
        return 0.0;
      }
      delay := Pow2(if excess <= 16 then excess else 16) as real;
      if delay > backoff.most {
        delay := backoff.most;
      }
    }

    /** Forget what is out of date, then the stalest addresses while the table is full. */
    method Sweep(now: real)
      requires Valid()
      modifies this`ips
      ensures Valid() && ips == Swept(old(ips), limits, now)
    {
      var stale := set ip | ip in ips.vals && Stale(ips.vals[ip], limits.lockout, now);
      ips := PopAll(ips, stale);
      assert old(ips).vals.Keys - stale == Current(old(ips), limits.lockout, now);
      while |ips.keys| >= limits.maxTracked
        invariant Ok(ips) && Capped(ips, limits.maxTracked) == Swept(old(ips), limits, now)
        decreases |ips.keys|
      {
        var oldest := ips.keys[FirstMin(ips.keys, Ages(ips))];
        PopShrinks(ips, oldest);
        ips := Pop(ips, oldest);
      }
    }

    method RecordFailure(ip: string, now: real)
      requires Valid()
      modifies this
      ensures Valid() && View() == Spec.RecordFailure(old(View()), ip, limits, now)
    {
      ghost var before := View();
      Sweep(now);
      CountFailure(ip, now);
      assert View() == Noted(before, Swept(before.ips, limits, now), ip, limits, now);
    }

    /** The part of a failure that follows the sweep. */
    method CountFailure(ip: string, now: real)
      requires Valid()
      modifies this
      ensures Valid() && View() == Noted(old(View()), old(ips), ip, limits, now)
    {
      var st := if ip in ips.vals then ips.vals[ip] else IpState(0, 0.0, 0.0);
      st := st.(failures := st.failures + 1, lastFailure := now);
      if st.failures >= limits.maxFailures {
        st := st.(lockedUntil := now + limits.lockout);
      }
      PutOk(ips, ip, st);
      ips := Put(ips, ip, st);
      globalFailures := globalFailures + 1;
      globalResetAt := now + limits.lockout;
    }

    method RecordSuccess(ip: string)
      requires Valid()
      modifies this
      ensures Valid() && View() == Spec.RecordSuccess(old(View()), ip)
    {
      PopOk(ips, ip);
      ips := Pop(ips, ip);
      globalFailures, globalResetAt := 0, 0.0;
    }
  }

  const DEFAULT_BACKOFF := Backoff(20, 30.0)

  datatype Response = PassedOn | TooManyRequests

  /** Every request to the registration endpoint counts as a failure of its address. */
  class RegisterRateLimit {
    const limiter: LoginRateLimiter

    constructor (maxPerIp: int, lockout: real, maxTracked: nat)
      requires maxTracked > 0
      ensures fresh(limiter) && limiter.Valid() && limiter.View() == START
      ensures limiter.limits == Limits(maxPerIp, lockout, maxTracked)
    {
      limiter := new LoginRateLimiter(Limits(maxPerIp, lockout, maxTracked), DEFAULT_BACKOFF);
    }

    method Call(isRegistration: bool, ip: string, now: real) returns (r: Response)
      requires limiter.Valid()
      modifies limiter
      ensures limiter.Valid()
      ensures !isRegistration ==> r == PassedOn && limiter.View() == old(limiter.View())
      ensures isRegistration ==>
                (limiter.View(), r == PassedOn) == Attempt(old(limiter.View()), ip, limiter.limits, now)
    {
      if !isRegistration {
        return PassedOn;
      }
      var remaining := limiter.LockedFor(ip, now);
      if remaining > 0.0 {
        return TooManyRequests;
      }
      limiter.RecordFailure(ip, now);
      return PassedOn;
    }
  }
}
