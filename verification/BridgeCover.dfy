/** Stamps against the prompts they stand for: the arithmetic of paying back abandonments. */
module BridgeCover {
  import opened BridgeSpec

  predicate Sorted(s: seq<real>) {
    forall i, j | 0 <= i < j < |s| :: s[i] <= s[j]
  }

  /** The j-th newest of `owed` is no newer than the j-th newest of `stamps`, for every j. */
  predicate Cover(owed: seq<real>, stamps: seq<real>) {
    && |owed| <= |stamps|
    && forall j | 0 <= j < |owed| :: owed[j] <= stamps[|stamps| - |owed| + j]
  }

  /** Stamps of one key at time `now`, and the times at which the prompts it owes were given up. */
  predicate CoverInv(owed: seq<real>, stamps: seq<real>, now: real) {
    && Sorted(owed) && Sorted(stamps) && Cover(owed, stamps)
    && (forall i | 0 <= i < |owed| :: owed[i] <= now)
    && (forall i | 0 <= i < |stamps| :: stamps[i] <= now)
  }

  lemma CoverRemove(owed: seq<real>, stamps: seq<real>, now: real, i: nat)
    requires i < |owed| && CoverInv(owed, stamps, now)
    ensures CoverInv(owed[..i] + owed[i + 1..], stamps, now)
  {
    var fewer := owed[..i] + owed[i + 1..];
    forall j | 0 <= j < |fewer| ensures fewer[j] <= stamps[|stamps| - |fewer| + j] {
      if j < i {
        assert fewer[j] == owed[j] <= owed[j + 1];
      } else {
        assert fewer[j] == owed[j + 1];
      }
    }
  }

  lemma CoverPop(owed: seq<real>, stamps: seq<real>, now: real)
    requires stamps != [] && CoverInv(owed, stamps, now)
    ensures CoverInv(if owed == [] then [] else owed[1..], stamps[1..], now)
  {
  }

  lemma CoverStamp(owed: seq<real>, stamps: seq<real>, now: real)
    requires CoverInv(owed, stamps, now)
    ensures CoverInv(owed, stamps + [now], now) && CoverInv(owed + [now], stamps + [now], now)
  {
    var more := stamps + [now];
    forall j | 0 <= j < |owed| ensures owed[j] <= more[|more| - |owed| + j] {
      var p := |stamps| - |owed| + j;
      assert owed[j] <= stamps[p];
      assert p + 1 < |stamps| ==> stamps[p] <= stamps[p + 1];
    }
  }

  /** On sorted stamps the expiry filter cuts off a prefix: exactly the expired ones. */
  lemma {:induction false} FreshIsSuffix(st: seq<real>, now: real)
    requires Sorted(st)
    ensures |Fresh(st, now)| <= |st| && Fresh(st, now) == st[|st| - |Fresh(st, now)|..]
    ensures forall i | 0 <= i < |st| :: i < |st| - |Fresh(st, now)| <==> now - st[i] > ABANDONED_TTL
  {
    if st != [] {
      FreshIsSuffix(st[1..], now);
      if now - st[0] <= ABANDONED_TTL && |st| > 1 {
        assert st[1..][0] == st[1];
        assert |Fresh(st[1..], now)| == |st| - 1;
      }
      forall i | 0 < i < |st|
        ensures i < |st| - |Fresh(st, now)| <==> now - st[i] > ABANDONED_TTL
      {
        assert st[1..][i - 1] == st[i];
        assert st[0] <= st[i];
      }
    }
  }

  /** Expiry keeps every owed prompt covered iff the stamp of the oldest one is not expired. */
  lemma CoverFresh(owed: seq<real>, stamps: seq<real>, now: real)
    requires CoverInv(owed, stamps, now)
    ensures CoverInv(owed, Fresh(stamps, now), now)
            <==> (owed == [] || now - stamps[|stamps| - |owed|] <= ABANDONED_TTL)
    ensures (forall i | 0 <= i < |owed| :: now - owed[i] <= ABANDONED_TTL) ==> CoverInv(owed, Fresh(stamps, now), now)
  {
    FreshIsSuffix(stamps, now);
    if owed != [] {
      assert owed[0] <= stamps[|stamps| - |owed|];
    }
  }
}
