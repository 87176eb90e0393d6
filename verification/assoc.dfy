/** A JavaScript object or `Map` keyed by strings, as the studio code uses
    them: a list of key/value entries in insertion order. Setting an existing
    key keeps its position; setting a new key appends it; `delete` removes it. */
module Assoc {
  import opened Wrappers

  /** No key occurs twice; every object the code builds has this shape. */
  predicate DistinctKeys<K(==), V>(e: seq<(K, V)>) {
    forall i, j :: 0 <= i < j < |e| ==> e[i].0 != e[j].0
  }

  predicate HasKey<K(==), V>(e: seq<(K, V)>, k: K) {
    exists i :: 0 <= i < |e| && e[i].0 == k
  }

  /** Past a first entry with another key, k is in the rest exactly when it is in the whole. */
  lemma HasKeyTail<K, V>(e: seq<(K, V)>, k: K)
    requires |e| > 0 && e[0].0 != k
    ensures HasKey(e, k) <==> HasKey(e[1..], k)
  {
    if HasKey(e, k) {
      var i :| 0 <= i < |e| && e[i].0 == k;
      assert e[1..][i - 1].0 == k;
    }
    if HasKey(e[1..], k) {
      var i :| 0 <= i < |e[1..]| && e[1..][i].0 == k;
      assert e[i + 1].0 == k;
    }
  }

  /** `obj[k]`: the value of the first entry with key k. */
  function Get<K(==), V>(e: seq<(K, V)>, k: K): (r: Option<V>)
    ensures r.Some? <==> HasKey(e, k)
    ensures r.Some? ==> exists i :: 0 <= i < |e| && e[i] == (k, r.value)
    ensures DistinctKeys(e) ==> forall i :: 0 <= i < |e| && e[i].0 == k ==> r == Some(e[i].1)
  {
    if |e| == 0 then None
    else if e[0].0 == k then Some(e[0].1)
    else
      var r := Get(e[1..], k);
      assert HasKey(e, k) ==> HasKey(e[1..], k) by {
        if HasKey(e, k) {
          var i :| 0 <= i < |e| && e[i].0 == k;
          assert e[1..][i - 1].0 == k;
        }
      }
      assert r.Some? ==> exists i :: 0 <= i < |e| && e[i] == (k, r.value) by {
        if r.Some? {
          var i :| 0 <= i < |e[1..]| && e[1..][i] == (k, r.value);
          assert e[i + 1] == (k, r.value);
        }
      }
      r
  }

  /** `{...obj, [k]: v}`: the entry for k is replaced in place, or appended. */
  function Put<K(==,!new), V>(e: seq<(K, V)>, k: K, v: V): (r: seq<(K, V)>)
    ensures Get(r, k) == Some(v)
    ensures forall k' :: k' != k ==> Get(r, k') == Get(e, k')
    ensures |r| == if HasKey(e, k) then |e| else |e| + 1
    ensures DistinctKeys(e) ==> DistinctKeys(r)
  {
    if |e| == 0 then [(k, v)]
    else if e[0].0 == k then [(k, v)] + e[1..]
    else
      var rest := Put(e[1..], k, v);
      var r := [e[0]] + rest;
      assert r[1..] == rest;
      HasKeyTail(e, k);
      assert DistinctKeys(e) ==> DistinctKeys(r) by {
        assert DistinctKeys(e) ==> DistinctKeys(r) by {
          if DistinctKeys(e) {
            HeadNotInTail(e);
            assert Get(rest, e[0].0) == Get(e[1..], e[0].0);
            ConsDistinct(e[0], rest);
          }
        }
      }
      r
  }

  /** `delete obj[k]`: every entry with key k is dropped, the others keep their order. */
  function Remove<K(==,!new), V>(e: seq<(K, V)>, k: K): (r: seq<(K, V)>)
    ensures Get(r, k) == None
    ensures forall k' :: k' != k ==> Get(r, k') == Get(e, k')
    ensures |r| <= |e|
    ensures forall i :: 0 <= i < |r| ==> r[i] in e
    ensures DistinctKeys(e) ==> DistinctKeys(r)
  {
    if |e| == 0 then []
    else
      var rest := Remove(e[1..], k);
      if e[0].0 == k then rest
      else
        var r := [e[0]] + rest;
        assert r[1..] == rest;
        assert DistinctKeys(e) ==> DistinctKeys(r) by {
          if DistinctKeys(e) {
            HeadNotInTail(e);
            assert Get(rest, e[0].0) == Get(e[1..], e[0].0);
            ConsDistinct(e[0], rest);
          }
        }
        r
  }

  /** The first key of a list without repeated keys does not recur in its tail. */
  lemma HeadNotInTail<K, V>(e: seq<(K, V)>)
    requires |e| > 0 && DistinctKeys(e)
    ensures DistinctKeys(e[1..]) && !HasKey(e[1..], e[0].0)
  {
  }

  /** An entry whose key the list lacks can go in front of it. */
  lemma ConsDistinct<K, V>(x: (K, V), rest: seq<(K, V)>)
    requires DistinctKeys(rest) && !HasKey(rest, x.0)
    ensures DistinctKeys([x] + rest)
  {
    var r := [x] + rest;
    forall i, j | 0 <= i < j < |r| ensures r[i].0 != r[j].0 {
      if i == 0 {
        assert r[j] == rest[j - 1];
      } else {
        assert r[i] == rest[i - 1] && r[j] == rest[j - 1];
      }
    }
  }
}
