/** What each call does to the state of the per-address limiter. */
module LimiterSpec {
  import opened PyDict

  datatype IpState = IpState(failures: int, lockedUntil: real, lastFailure: real)

  datatype Limiter = Limiter(ips: Dict<string, IpState>, globalFailures: int, globalResetAt: real)

  datatype Limits = Limits(maxFailures: int, lockout: real, maxTracked: nat)

  /** From how many failures of all addresses together a delay is asked for, and the longest one. */
  datatype Backoff = Backoff(threshold: int, most: real)

  const START := Limiter(Empty(), 0, 0.0)

  // ------------------------------------------------------------ what each call does

  function Without(l: Limiter, ip: string): Limiter {
    l.(ips := Pop(l.ips, ip))
  }

  /** Seconds left of the lock of `ip`; an elapsed lock is forgotten, and its count with it. */
  function LockedFor(l: Limiter, ip: string, now: real): (Limiter, real) {
    if ip !in l.ips.vals then (l, 0.0)
    else
      var until := l.ips.vals[ip].lockedUntil;
      if until - now <= 0.0 then (if until != 0.0 then Without(l, ip) else l, 0.0)
      else (l, until - now)
  }

  predicate Stale(st: IpState, lockout: real, now: real) {
    st.lockedUntil <= now && now - st.lastFailure > lockout
  }

  /** The addresses that are still worth remembering. */
  function Current(ips: Dict<string, IpState>, lockout: real, now: real): set<string> {
    set ip | ip in ips.vals && !Stale(ips.vals[ip], lockout, now)
  }

  function Ages(ips: Dict<string, IpState>): map<string, real> {
    map ip | ip in ips.vals :: ips.vals[ip].lastFailure
  }

  /** Evict the stalest address until there is room for one more. */
  function Capped(ips: Dict<string, IpState>, cap: nat): Dict<string, IpState>
    requires cap > 0 && Ok(ips)
    decreases |ips.keys|
  {
    if |ips.keys| < cap then ips
    else
      var oldest := ips.keys[FirstMin(ips.keys, Ages(ips))];
      PopShrinks(ips, oldest);
      Capped(Pop(ips, oldest), cap)
  }

  function Swept(ips: Dict<string, IpState>, limits: Limits, now: real): Dict<string, IpState>
    requires limits.maxTracked > 0 && Ok(ips)
  {
    Capped(Restrict(ips, Current(ips, limits.lockout, now)), limits.maxTracked)
  }

  /** One more failure of an address, remembered as `st` so far. */
  function Failed(st: IpState, limits: Limits, now: real): IpState {
    IpState(st.failures + 1,
            if st.failures + 1 >= limits.maxFailures then now + limits.lockout else st.lockedUntil,
            now)
  }

  function StateOf(ips: Dict<string, IpState>, ip: string): IpState {
    if ip in ips.vals then ips.vals[ip] else IpState(0, 0.0, 0.0)
  }

  /** The failure of `ip` on top of what the sweep kept. */
  function Noted(l: Limiter, kept: Dict<string, IpState>, ip: string, limits: Limits, now: real): Limiter {
    Limiter(Put(kept, ip, Failed(StateOf(kept, ip), limits, now)), l.globalFailures + 1, now + limits.lockout)
  }

  function RecordFailure(l: Limiter, ip: string, limits: Limits, now: real): Limiter
    requires limits.maxTracked > 0 && Ok(l.ips)
  {
    Noted(l, Swept(l.ips, limits, now), ip, limits, now)
  }

  function RecordSuccess(l: Limiter, ip: string): Limiter {
    Limiter(Pop(l.ips, ip), 0, 0.0)
  }

  /** A guarded attempt that fails: refused while the address is locked, recorded otherwise.
      This is a wrong password at the login, and any request to the registration endpoint. */
  function Attempt(l: Limiter, ip: string, limits: Limits, now: real): (Limiter, bool)
    requires limits.maxTracked > 0 && Ok(l.ips)
  {
    var (c, remaining) := LockedFor(l, ip, now);
    PopOk(l.ips, ip);
    if remaining > 0.0 then (c, false) else (RecordFailure(c, ip, limits, now), true)
  }

  function Pow2(n: nat): nat {
    if n == 0 then 1 else 2 * Pow2(n - 1)
  }

  /** The delay before a password is evaluated: none up to the threshold, then doubling with
      every failure. A lockout after the last failure the count starts over. */
  function GlobalDelay(l: Limiter, backoff: Backoff, now: real): (Limiter, real) {
    var elapsed := l.globalResetAt != 0.0 && now >= l.globalResetAt;
    var c := if elapsed then l.(globalFailures := 0, globalResetAt := 0.0) else l;
    var excess := c.globalFailures - backoff.threshold;
    if excess <= 0 then (c, 0.0)
    else
      var delay := Pow2(if excess <= 16 then excess else 16) as real;
      (c, if delay <= backoff.most then delay else backoff.most)
  }

  // ---------------------------------------------------------------- well-formedness

  /** The cap only forgets: what is left is unchanged, in order, and leaves room for one more. */
  lemma {:induction false} CappedForgets(ips: Dict<string, IpState>, cap: nat)
    requires cap > 0 && Ok(ips)
    ensures Ok(Capped(ips, cap)) && |Capped(ips, cap).keys| < cap
    ensures forall ip | ip in Capped(ips, cap).vals :: ip in ips.vals && Capped(ips, cap).vals[ip] == ips.vals[ip]
    ensures |ips.keys| < cap ==> Capped(ips, cap) == ips
    decreases |ips.keys|
  {
    if |ips.keys| >= cap {
      var oldest := ips.keys[FirstMin(ips.keys, Ages(ips))];
      PopShrinks(ips, oldest);
      CappedForgets(Pop(ips, oldest), cap);
    }
  }

  lemma SweptForgets(ips: Dict<string, IpState>, limits: Limits, now: real)
    requires limits.maxTracked > 0 && Ok(ips)
    ensures var swept := Swept(ips, limits, now);
      && Ok(swept) && |swept.keys| < limits.maxTracked
      && forall ip | ip in swept.vals :: ip in Current(ips, limits.lockout, now) && swept.vals[ip] == ips.vals[ip]
  {
    CappedForgets(Restrict(ips, Current(ips, limits.lockout, now)), limits.maxTracked);
  }

  lemma StepsOk(l: Limiter, ip: string, limits: Limits, now: real)
    requires limits.maxTracked > 0 && Ok(l.ips)
    ensures Ok(LockedFor(l, ip, now).0.ips) && Ok(RecordSuccess(l, ip).ips)
    ensures Ok(RecordFailure(l, ip, limits, now).ips)
            && |RecordFailure(l, ip, limits, now).ips.keys| <= limits.maxTracked
  {
    PopOk(l.ips, ip);
    SweptForgets(l.ips, limits, now);
    var kept := Swept(l.ips, limits, now);
    PutOk(kept, ip, Failed(StateOf(kept, ip), limits, now));
  }
}
