/** A Python dict: look-up by key, iteration in the order in which keys were first inserted. */
module PyDict {

  datatype Dict<!K(==), V> = Dict(keys: seq<K>, vals: map<K, V>)

  predicate Distinct<K(==)>(keys: seq<K>) {
    forall i, j | 0 <= i < j < |keys| :: keys[i] != keys[j]
  }

  ghost predicate Ok<K(!new), V>(d: Dict<K, V>) {
    Distinct(d.keys) && (forall k :: k in d.keys <==> k in d.vals)
  }

  function Empty<K(==), V>(): Dict<K, V> {
    Dict([], map[])
  }

  /** `d[k] = v`: an existing key keeps its place. */
  function Put<K(==), V>(d: Dict<K, V>, k: K, v: V): Dict<K, V> {
    Dict(if k in d.vals then d.keys else d.keys + [k], d.vals[k := v])
  }

  /** The keys that are in `keep`, in order. */
  function Among<K(==,!new)>(keys: seq<K>, keep: set<K>): (r: seq<K>)
    ensures |r| <= |keys| && forall k :: k in r <==> k in keys && k in keep
    ensures Distinct(keys) ==> Distinct(r)
  {
    if keys == [] then [] else (if keys[0] in keep then [keys[0]] else []) + Among(keys[1..], keep)
  }

  /** Delete every key that is not in `keep`. */
  function Restrict<K(==,!new), V>(d: Dict<K, V>, keep: set<K>): Dict<K, V> {
    Dict(Among(d.keys, keep), map k | k in d.vals && k in keep :: d.vals[k])
  }

  /** `d.pop(k, None)` */
  function Pop<K(==,!new), V>(d: Dict<K, V>, k: K): Dict<K, V> {
    Restrict(d, d.vals.Keys - {k})
  }

  /** `min(keys, key=score.get)`: the first of the keys with the least score. */
  function FirstMin<K(==)>(keys: seq<K>, score: map<K, real>): (i: nat)
    requires keys != [] && forall k | k in keys :: k in score
    ensures i < |keys|
    ensures forall j | 0 <= j < |keys| :: score[keys[i]] <= score[keys[j]]
    ensures forall j | 0 <= j < i :: score[keys[i]] < score[keys[j]]
  {
    if |keys| == 1 then 0
    else
      var r := 1 + FirstMin(keys[1..], score);
      assert keys[1..][r - 1] == keys[r];
      assert forall j | 1 <= j < |keys| :: keys[1..][j - 1] == keys[j];
      if score[keys[0]] <= score[keys[r]] then 0 else r
  }

  lemma AmongAll<K(!new)>(keys: seq<K>, keep: set<K>)
    requires forall k | k in keys :: k in keep
    ensures Among(keys, keep) == keys
  {
    if keys != [] {
      AmongAll(keys[1..], keep);
    }
  }

  lemma AmongCons<K(!new)>(k: K, keys: seq<K>, keep: set<K>)
    ensures Among([k] + keys, keep) == (if k in keep then [k] else []) + Among(keys, keep)
  {
    assert ([k] + keys)[1..] == keys;
  }

  /** Keeping fewer keys of what was kept. */
  lemma {:induction false} AmongAmong<K(!new)>(keys: seq<K>, a: set<K>, b: set<K>)
    requires b <= a
    ensures Among(Among(keys, a), b) == Among(keys, b)
  {
    if keys != [] {
      var k, rest := keys[0], Among(keys[1..], a);
      AmongAmong(keys[1..], a, b);
      AmongCons(k, rest, b);
      assert Among(keys, a) == if k in a then [k] + rest else rest;
    }
  }

  lemma RestrictRestrict<K(!new), V>(d: Dict<K, V>, a: set<K>, b: set<K>)
    requires b <= a
    ensures Restrict(Restrict(d, a), b) == Restrict(d, b)
  {
    AmongAmong(d.keys, a, b);
  }

  lemma RestrictAll<K(!new), V>(d: Dict<K, V>)
    requires Ok(d)
    ensures Restrict(d, d.vals.Keys) == d
  {
    AmongAll(d.keys, d.vals.Keys);
  }

  lemma {:induction false} AmongHead<K(!new)>(keys: seq<K>, keep: set<K>)
    requires keys != [] && Distinct(keys) && keep == (set k | k in keys) - {keys[0]}
    ensures Among(keys, keep) == keys[1..]
  {
    AmongAll(keys[1..], keep);
  }

  /** A well-formed dict has as many entries as keys. */
  lemma {:induction false} KeyCount<K(!new), V>(d: Dict<K, V>)
    requires Ok(d)
    ensures |d.keys| == |d.vals|
    decreases |d.keys|
  {
    if d.keys == [] {
      assert d.vals == map[];
    } else {
      var last := d.keys[|d.keys| - 1];
      var rest := Dict(d.keys[..|d.keys| - 1], d.vals - {last});
      assert forall k | k in d.keys :: k in rest.keys || k == last;
      KeyCount(rest);
      assert d.vals.Keys == rest.vals.Keys + {last};
      assert |d.vals.Keys| == |d.vals| && |rest.vals.Keys| == |rest.vals|;
    }
  }

  lemma RestrictOk<K(!new), V>(d: Dict<K, V>, keep: set<K>)
    requires Ok(d)
    ensures Ok(Restrict(d, keep))
  {
  }

  lemma PutOk<K(!new), V>(d: Dict<K, V>, k: K, v: V)
    requires Ok(d)
    ensures Ok(Put(d, k, v)) && |Put(d, k, v).keys| == |d.keys| + (if k in d.vals then 0 else 1)
  {
  }

  lemma PopOk<K(!new), V>(d: Dict<K, V>, k: K)
    requires Ok(d)
    ensures Ok(Pop(d, k)) && forall j :: j in Pop(d, k).vals <==> j in d.vals && j != k
  {
  }

  lemma PopShrinks<K(!new), V>(d: Dict<K, V>, k: K)
    requires Ok(d) && k in d.vals
    ensures Ok(Pop(d, k)) && |Pop(d, k).keys| == |d.keys| - 1
  {
    KeyCount(d);
    KeyCount(Pop(d, k));
    assert Pop(d, k).vals == d.vals - {k};
    assert d.vals.Keys == Pop(d, k).vals.Keys + {k};
    assert |d.vals.Keys| == |d.vals| && |Pop(d, k).vals.Keys| == |Pop(d, k).vals|;
  }

  lemma PopRestricted<K(!new), V>(d: Dict<K, V>, keep: set<K>, k: K)
    requires Ok(d) && keep <= d.vals.Keys
    ensures Ok(Pop(Restrict(d, keep), k)) && Pop(Restrict(d, keep), k) == Restrict(d, keep - {k})
  {
    RestrictOk(d, keep - {k});
    assert Restrict(d, keep).vals.Keys == keep;
    RestrictRestrict(d, keep, keep - {k});
  }

  /** `for k in gone: d.pop(k, None)` */
  method PopAll<K(==,!new), V>(d: Dict<K, V>, gone: set<K>) returns (r: Dict<K, V>)
    requires Ok(d) && gone <= d.vals.Keys
    ensures Ok(r) && r == Restrict(d, d.vals.Keys - gone)
  {
    r := d;
    var todo := gone;
    ghost var keep := d.vals.Keys;
    RestrictAll(d);
    while todo != {}
      invariant todo <= gone && keep <= d.vals.Keys && keep == d.vals.Keys - (gone - todo)
      invariant Ok(r) && r == Restrict(d, keep)
    {
      var k :| k in todo;
      PopRestricted(d, keep, k);
      r := Pop(r, k);
      todo, keep := todo - {k}, keep - {k};
    }
    assert keep == d.vals.Keys - gone;
  }

  lemma AmongStep<K(!new)>(keys: seq<K>, keep: set<K>, i: nat)
    requires i < |keys|
    ensures Among(keys[i..], keep) == (if keys[i] in keep then [keys[i]] else []) + Among(keys[i + 1..], keep)
  {
    assert keys[i..][1..] == keys[i + 1..];
  }

  /** `[k for k in keys if k in keep]` */
  method Select<K(==,!new)>(keys: seq<K>, keep: set<K>) returns (r: seq<K>)
    ensures r == Among(keys, keep)
  {
    r := [];
    for i := 0 to |keys|
      invariant r + Among(keys[i..], keep) == Among(keys, keep)
    {
      ghost var rest := Among(keys[i + 1..], keep);
      AmongStep(keys, keep, i);
      if keys[i] in keep {
        assert r + ([keys[i]] + rest) == (r + [keys[i]]) + rest;
        r := r + [keys[i]];
      } else {
        assert [] + rest == rest;
      }
    }
  }
}
