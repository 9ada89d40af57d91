/** Whom the hard cap of the limiter forgets: an address survives a sweep iff fewer than
    `cap - 1` others outrank it. */
module RateRank {
  import opened PyDict
  import opened LimiterSpec

  /** `b` comes after `a` in `keys`. */
  predicate Precedes(keys: seq<string>, a: string, b: string) {
    keys != [] && (if keys[0] == a then b in keys[1..] else Precedes(keys[1..], a, b))
  }

  /** `other` is evicted later than `ip`: it failed later, or then too and comes after it. */
  predicate Outranks(ips: Dict<string, IpState>, other: string, ip: string)
    requires other in ips.vals && ip in ips.vals
  {
    || ips.vals[other].lastFailure > ips.vals[ip].lastFailure
    || (ips.vals[other].lastFailure == ips.vals[ip].lastFailure && Precedes(ips.keys, ip, other))
  }

  function Outranking(ips: Dict<string, IpState>, ip: string): set<string>
    requires ip in ips.vals
  {
    set other | other in ips.vals && other != ip && Outranks(ips, other, ip)
  }

  lemma {:induction false} PrecedesAmong(keys: seq<string>, keep: set<string>, a: string, b: string)
    requires Distinct(keys) && a in keep && b in keep
    ensures Precedes(Among(keys, keep), a, b) <==> Precedes(keys, a, b)
  {
    if keys != [] {
      PrecedesAmong(keys[1..], keep, a, b);
      var rest := Among(keys[1..], keep);
      if keys[0] in keep {
        assert Among(keys, keep) == [keys[0]] + rest;
        assert ([keys[0]] + rest)[1..] == rest;
      } else {
        assert Among(keys, keep) == rest;
      }
    }
  }

  lemma {:induction false} PrecedesIndex(keys: seq<string>, i: nat, j: nat)
    requires Distinct(keys) && i < |keys| && j < |keys|
    ensures Precedes(keys, keys[i], keys[j]) <==> i < j
  {
    if i == 0 {
      if j > 0 {
        assert keys[1..][j - 1] == keys[j];
      } else {
        assert forall n | 0 <= n < |keys[1..]| :: keys[1..][n] == keys[n + 1];
      }
    } else if j == 0 {
      NeverAfter(keys[1..], keys[i], keys[0]);
    } else {
      PrecedesIndex(keys[1..], i - 1, j - 1);
      assert keys[1..][i - 1] == keys[i] && keys[1..][j - 1] == keys[j];
    }
  }

  lemma {:induction false} NeverAfter(keys: seq<string>, a: string, b: string)
    requires b !in keys
    ensures !Precedes(keys, a, b)
  {
    if keys != [] {
      NeverAfter(keys[1..], a, b);
    }
  }

  /** The one the cap evicts next is outranked by everybody else, and outranks nobody. */
  lemma OldestRanksLast(ips: Dict<string, IpState>, i: nat, ip: string)
    requires Ok(ips) && ips.keys != [] && i == FirstMin(ips.keys, Ages(ips)) && ip in ips.vals && ip != ips.keys[i]
    ensures Outranks(ips, ip, ips.keys[i]) && !Outranks(ips, ips.keys[i], ip)
  {
    var j :| 0 <= j < |ips.keys| && ips.keys[j] == ip;
    assert Ages(ips)[ips.keys[i]] <= Ages(ips)[ips.keys[j]];
    PrecedesIndex(ips.keys, i, j);
    PrecedesIndex(ips.keys, j, i);
  }

  lemma OutrankingWithout(ips: Dict<string, IpState>, oldest: string, ip: string)
    requires Ok(ips) && ip in ips.vals && oldest in ips.vals && ip != oldest && !Outranks(ips, oldest, ip)
    ensures ip in Pop(ips, oldest).vals && Outranking(Pop(ips, oldest), ip) == Outranking(ips, ip)
  {
    var keep := ips.vals.Keys - {oldest};
    forall other | other in keep ensures Precedes(Among(ips.keys, keep), ip, other) <==> Precedes(ips.keys, ip, other) {
      PrecedesAmong(ips.keys, keep, ip, other);
    }
  }

  lemma OutrankingCount(ips: Dict<string, IpState>, ip: string)
    requires Ok(ips) && ip in ips.vals
    ensures |Outranking(ips, ip)| < |ips.keys|
  {
    KeyCount(ips);
    SmallerSet(Outranking(ips, ip), ips.vals.Keys - {ip});
    assert |ips.vals.Keys| == |ips.vals|;
  }

  lemma SmallerSet<T>(a: set<T>, b: set<T>)
    requires a <= b
    ensures |a| <= |b|
  {
    assert b == a + (b - a);
  }

  /** An address survives the cap exactly when fewer than `cap - 1` others outrank it. */
  lemma {:induction false} SurvivesTheCap(ips: Dict<string, IpState>, cap: nat, ip: string)
    requires cap > 0 && Ok(ips) && ip in ips.vals
    ensures ip in Capped(ips, cap).vals <==> |Outranking(ips, ip)| < cap - 1
    decreases |ips.keys|
  {
    CappedForgets(ips, cap);
    OutrankingCount(ips, ip);
    if |ips.keys| >= cap {
      var i := FirstMin(ips.keys, Ages(ips));
      var oldest := ips.keys[i];
      PopShrinks(ips, oldest);
      if ip == oldest {
        AllOutrankTheOldest(ips, i);
        CappedForgets(Pop(ips, oldest), cap);
      } else {
        OldestRanksLast(ips, i, ip);
        OutrankingWithout(ips, oldest, ip);
        SurvivesTheCap(Pop(ips, oldest), cap, ip);
      }
    }
  }

  lemma AllOutrankTheOldest(ips: Dict<string, IpState>, i: nat)
    requires Ok(ips) && ips.keys != [] && i == FirstMin(ips.keys, Ages(ips))
    ensures |Outranking(ips, ips.keys[i])| == |ips.keys| - 1
  {
    var oldest := ips.keys[i];
    forall other | other in ips.vals && other != oldest ensures Outranks(ips, other, oldest) {
      OldestRanksLast(ips, i, other);
    }
    assert Outranking(ips, oldest) == ips.vals.Keys - {oldest};
    KeyCount(ips);
    assert |ips.vals.Keys| == |ips.vals|;
  }

  /** What a sweep leaves: the address is current, and not too many current ones outrank it. */
  lemma SurvivesTheSweep(ips: Dict<string, IpState>, limits: Limits, now: real, ip: string)
    requires limits.maxTracked > 0 && Ok(ips) && ip in ips.vals
    ensures var current := Restrict(ips, Current(ips, limits.lockout, now));
      ip in Swept(ips, limits, now).vals <==>
      (!Stale(ips.vals[ip], limits.lockout, now) && |Outranking(current, ip)| < limits.maxTracked - 1)
  {
    var current := Restrict(ips, Current(ips, limits.lockout, now));
    RestrictOk(ips, Current(ips, limits.lockout, now));
    if ip in current.vals {
      SurvivesTheCap(current, limits.maxTracked, ip);
    } else {
      SweptForgets(ips, limits, now);
    }
  }
}
