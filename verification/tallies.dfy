/** Occurrence counts, as the report's `ErrorDetails` and `StatusCodeDist`
    maps hold them: one pass over a list of keys, bumping the key's entry
    (Go's `m[k]++`, where a missing key reads as zero). */
module Tallies {

  /** `m[k]++` on a Go map whose missing entries read as 0. */
  function Bump<K>(m: map<K, nat>, k: K): (m': map<K, nat>)
    ensures m'.Keys == m.Keys + {k}
    ensures m'[k] == (if k in m then m[k] else 0) + 1
    ensures forall j :: j in m && j != k ==> m'[j] == m[j]
  {
    m[k := if k in m then m[k] + 1 else 1]
  }

  /** The tally a single pass over `keys` builds, starting from an empty map.
      Its entries are exactly the keys that occur, each with its multiplicity. */
  function Tally<K(!new)>(keys: seq<K>): (m: map<K, nat>)
    ensures forall k :: k in m <==> k in keys
    ensures forall k :: k in m ==> m[k] == multiset(keys)[k]
  {
    if |keys| == 0 then map[]
    else
      var init, last := keys[..|keys| - 1], keys[|keys| - 1];
      assert keys == init + [last];
      Bump(Tally(init), last)
  }

  /** Appending a key to the list bumps that key's entry of the tally. */
  lemma TallySnoc<K(!new)>(keys: seq<K>, k: K)
    ensures Tally(keys + [k]) == Bump(Tally(keys), k)
  {
    assert (keys + [k])[..|keys|] == keys;
  }

  /** Some key of a non-empty map, always the same one for the same map. */
  ghost function SomeKey<K>(m: map<K, nat>): (k: K)
    requires |m| > 0
    ensures k in m
  {
    var k :| k in m; k
  }

  /** The sum of a map's values. */
  ghost function MapSum<K>(m: map<K, nat>): nat
    decreases |m|
  {
    if |m| == 0 then 0
    else
      var k := SomeKey(m);
      assert |m - {k}| < |m| by {
        assert (m - {k}).Keys == m.Keys - {k};
      }
      m[k] + MapSum(m - {k})
  }

  /** The sum does not depend on which key is taken out first. */
  lemma {:induction false} MapSumRemove<K>(m: map<K, nat>, k: K)
    requires k in m
    ensures MapSum(m) == m[k] + MapSum(m - {k})
    decreases |m|
  {
    var j := SomeKey(m);
    assert (m - {j}).Keys == m.Keys - {j};
    if j != k {
      var mj, mk := m - {j}, m - {k};
      assert mj.Keys == m.Keys - {j} && mk.Keys == m.Keys - {k};
      MapSumRemove(mj, k);
      MapSumRemove(mk, j);
      assert mj - {k} == mk - {j};
    }
  }

  /** One bump adds one to the sum of the counts. */
  lemma MapSumBump<K>(m: map<K, nat>, k: K)
    ensures MapSum(Bump(m, k)) == MapSum(m) + 1
  {
    var b := Bump(m, k);
    MapSumRemove(b, k);
    if k in m {
      MapSumRemove(m, k);
      assert b - {k} == m - {k};
    } else {
      assert b - {k} == m;
    }
  }

  /** The counts of a tally add up to the number of keys it was built from. */
  lemma {:induction false} TallySum<K(!new)>(keys: seq<K>)
    ensures MapSum(Tally(keys)) == |keys|
  {
    if |keys| > 0 {
      var init, last := keys[..|keys| - 1], keys[|keys| - 1];
      TallySum(init);
      MapSumBump(Tally(init), last);
    }
  }

  /** A list made of `n` copies of one key tallies to a single entry `n`. */
  lemma TallyOfRepeated<K(!new)>(keys: seq<K>, k: K)
    requires |keys| > 0
    requires forall i :: 0 <= i < |keys| ==> keys[i] == k
    ensures Tally(keys) == map[k := |keys|]
  {
    var t := Tally(keys);
    assert multiset(keys)[k] == |keys| by {
      assert multiset(keys) == multiset{} [k := |keys|] by {
        MultisetOfRepeated(keys, k);
      }
    }
    assert forall j :: j in t <==> j == k by {
      assert keys[0] == k;
    }
    assert t.Keys == {k};
  }

  lemma {:induction false} MultisetOfRepeated<K>(keys: seq<K>, k: K)
    requires forall i :: 0 <= i < |keys| ==> keys[i] == k
    ensures multiset(keys) == multiset{} [k := |keys|]
  {
    if |keys| > 0 {
      var init := keys[..|keys| - 1];
      assert keys == init + [k];
      MultisetOfRepeated(init, k);
    }
  }
}
