/** A full table breaks the sliding window, whatever its size: enough other addresses make the
    limiter forget a lock that has just begun. */
module RateCap {
  import opened PyDict
  import opened LimiterSpec
  import opened RateRank
  import opened RateWindow

  /** The names of the bystanders. */
  function Name(i: nat): (s: string)
    ensures |s| == i + 1 && s[0] == 'b'
  {
    seq(i + 1, _ => 'b')
  }

  /** Nothing but failing attempts, all at time zero. */
  predicate Attempts(run: seq<Event>) {
    forall i | 0 <= i < |run| :: run[i].Try? && run[i].at == 0.0
  }

  /** One address guesses; `i` of its failures were recorded, and it is not locked before the
      threshold. */
  ghost predicate Guessing(l: Limiter, limits: Limits, i: nat) {
    && Ok(l.ips) && |l.ips.keys| <= 1 && i <= Threshold(limits)
    && forall ip | ip in l.ips.vals ::
         var st := l.ips.vals[ip];
         && ip == "a" && st.lastFailure == 0.0 && 0 <= st.failures <= i
         && (st.failures < Threshold(limits) ==> st.lockedUntil == 0.0)
  }

  /** `j` bystanders failed after it. While it is remembered, it is the first of the table. */
  ghost predicate Crowded(l: Limiter, limits: Limits, j: nat) {
    && Ok(l.ips) && (forall ip | ip in l.ips.vals :: l.ips.vals[ip].lastFailure == 0.0)
    && (forall i: nat | i >= j :: Name(i) !in l.ips.vals)
    && ("a" in l.ips.vals ==>
          l.ips.keys != [] && l.ips.keys[0] == "a" && |l.ips.keys| == j + 1 && j < limits.maxTracked)
  }

  lemma GuessKeeps(l: Limiter, limits: Limits, i: nat)
    requires limits.maxTracked > 0 && limits.lockout > 0.0 && Guessing(l, limits, i) && i < Threshold(limits)
    ensures After(l, Try("a", 0.0), limits).1 && Guessing(After(l, Try("a", 0.0), limits).0, limits, i + 1)
  {
    AfterOk(l, Try("a", 0.0), limits);
    SweptForgets(l.ips, limits, 0.0);
    var kept := Swept(l.ips, limits, 0.0);
    assert LockedFor(l, "a", 0.0) == (l, 0.0);
    OnlyOne(kept, "a", Failed(StateOf(kept, "a"), limits, 0.0));
  }

  lemma OnlyOne(ips: Dict<string, IpState>, ip: string, st: IpState)
    requires Ok(ips) && forall other | other in ips.vals :: other == ip
    ensures |Put(ips, ip, st).keys| == 1
  {
    var more := Put(ips, ip, st);
    PutOk(ips, ip, st);
    KeyCount(more);
    assert more.vals.Keys == {ip} && |more.vals.Keys| == |more.vals|;
  }

  /** When no entry is stale, everybody after the head outranks it. */
  lemma HeadOutranked(ips: Dict<string, IpState>)
    requires Ok(ips) && ips.keys != [] && forall ip | ip in ips.vals :: ips.vals[ip].lastFailure == 0.0
    ensures |Outranking(ips, ips.keys[0])| == |ips.keys| - 1
  {
    forall other | other in ips.vals && other != ips.keys[0] ensures Outranks(ips, other, ips.keys[0]) {
      var j :| 0 <= j < |ips.keys| && ips.keys[j] == other;
      PrecedesIndex(ips.keys, 0, j);
    }
    assert Outranking(ips, ips.keys[0]) == ips.vals.Keys - {ips.keys[0]};
    KeyCount(ips);
    assert |ips.vals.Keys| == |ips.vals|;
  }

  lemma NobodyStale(ips: Dict<string, IpState>, limits: Limits)
    requires Ok(ips) && limits.lockout > 0.0 && forall ip | ip in ips.vals :: ips.vals[ip].lastFailure == 0.0
    ensures Restrict(ips, Current(ips, limits.lockout, 0.0)) == ips
  {
    assert Current(ips, limits.lockout, 0.0) == ips.vals.Keys;
    RestrictAll(ips);
  }

  /** The sweep of the next bystander keeps the first address iff there is still room for both. */
  lemma CrowdSweeps(l: Limiter, limits: Limits, j: nat)
    requires limits.maxTracked > 0 && limits.lockout > 0.0 && Crowded(l, limits, j) && "a" in l.ips.vals
    ensures var kept := Swept(l.ips, limits, 0.0);
      if j + 1 < limits.maxTracked then kept == l.ips else "a" !in kept.vals
  {
    NobodyStale(l.ips, limits);
    HeadOutranked(l.ips);
    SurvivesTheCap(l.ips, limits.maxTracked, "a");
    CappedForgets(l.ips, limits.maxTracked);
  }

  lemma BystanderKeeps(l: Limiter, limits: Limits, j: nat)
    requires limits.maxTracked > 0 && limits.lockout > 0.0 && Crowded(l, limits, j)
    ensures After(l, Try(Name(j), 0.0), limits).1 && Crowded(After(l, Try(Name(j), 0.0), limits).0, limits, j + 1)
  {
    var kept := Swept(l.ips, limits, 0.0);
    AfterOk(l, Try(Name(j), 0.0), limits);
    SweptForgets(l.ips, limits, 0.0);
    if "a" in l.ips.vals {
      CrowdSweeps(l, limits, j);
    }
    PutOk(kept, Name(j), Failed(StateOf(kept, Name(j)), limits, 0.0));
    assert forall i: nat | i != j :: |Name(i)| != |Name(j)|;
    assert Name(j)[0] != "a"[0];
  }

  lemma FailuresCons(l: Limiter, e: Event, rest: seq<Event>, limits: Limits, times: seq<real>)
    requires limits.maxTracked > 0 && Ok(l.ips)
    ensures Ok(After(l, e, limits).0.ips)
    ensures Failures(l, [e] + rest, limits, "a", times)
         == Failures(After(l, e, limits).0, rest, limits, "a", Logged(times, l, e, limits, "a"))
  {
    AfterOk(l, e, limits);
    assert ([e] + rest)[1..] == rest;
  }

  /** The crowd passes by, and the first address tries once more. */
  lemma {:induction false} Crowd(l: Limiter, limits: Limits, j: nat, times: seq<real>) returns (run: seq<Event>)
    requires limits.maxTracked > 0 && limits.lockout > 0.0 && Crowded(l, limits, j) && j <= limits.maxTracked
    ensures Attempts(run) && Failures(l, run, limits, "a", times) == times + [0.0]
    decreases limits.maxTracked - j
  {
    if j == limits.maxTracked {
      run := [Try("a", 0.0)];
      AfterOk(l, run[0], limits);
      assert After(l, run[0], limits).1;
      assert run[1..] == [];
    } else {
      var e := Try(Name(j), 0.0);
      BystanderKeeps(l, limits, j);
      AfterOk(l, e, limits);
      var rest := Crowd(After(l, e, limits).0, limits, j + 1, times);
      run := [e] + rest;
      FailuresCons(l, e, rest, limits, times);
      assert Name(j)[0] != "a"[0];
      assert Logged(times, l, e, limits, "a") == times;
    }
  }

  predicate Zeros(times: seq<real>) {
    forall i | 0 <= i < |times| :: times[i] == 0.0
  }

  lemma NobodyElse(l: Limiter, limits: Limits)
    requires limits.maxTracked > 0 && Guessing(l, limits, Threshold(limits))
    ensures Crowded(l, limits, 0)
  {
    assert "a" in l.ips.vals ==> l.ips.keys == ["a"] by {
      assert "a" in l.ips.vals ==> "a" in l.ips.keys;
    }
    forall n: nat ensures Name(n) !in l.ips.vals { assert Name(n)[0] != "a"[0]; }
  }

  lemma {:induction false} Guesses(l: Limiter, limits: Limits, i: nat, times: seq<real>) returns (run: seq<Event>)
    requires limits.maxTracked > 0 && limits.lockout > 0.0 && Guessing(l, limits, i) && Zeros(times) && |times| == i
    ensures Attempts(run) && Zeros(Failures(l, run, limits, "a", times))
    ensures |Failures(l, run, limits, "a", times)| == Threshold(limits) + 1
    decreases Threshold(limits) - i
  {
    if i == Threshold(limits) {
      NobodyElse(l, limits);
      run := Crowd(l, limits, 0, times);
    } else {
      var e := Try("a", 0.0);
      GuessKeeps(l, limits, i);
      AfterOk(l, e, limits);
      var rest := Guesses(After(l, e, limits).0, limits, i + 1, times + [0.0]);
      run := [e] + rest;
      FailuresCons(l, e, rest, limits, times);
    }
  }

  /** For every size of the table and every threshold: a run of failing attempts, all at the
      same moment, in which the limiter records one failure of an address more than it
      tolerates. */
  lemma CapBreaksWindow(limits: Limits) returns (run: seq<Event>)
    requires limits.maxTracked > 0 && limits.lockout > 0.0
    ensures Attempts(run)
    ensures var times, k := Failures(START, run, limits, "a", []), Threshold(limits);
      |times| == k + 1 && times[k] - times[0] < limits.lockout
  {
    run := Guesses(START, limits, 0, []);
  }
}
