/**
 * Python's insertion-ordered `dict`, as a sequence of key/value pairs with
 * distinct keys.  Assigning to a present key replaces its value in place;
 * a new key goes to the end.
 */
module PyDict {
  import opened Wrappers

  type Dict<K, V> = seq<(K, V)>

  /** The keys in insertion order (`list(d.keys())`). */
  function Keys<K, V>(d: Dict<K, V>): (r: seq<K>)
    ensures |r| == |d| && forall i :: 0 <= i < |d| ==> r[i] == d[i].0
  {
    if |d| == 0 then [] else [d[0].0] + Keys(d[1..])
  }

  predicate DistinctKeys<K(==), V>(d: Dict<K, V>) {
    forall i, j :: 0 <= i < j < |d| ==> d[i].0 != d[j].0
  }

  /** `d.get(k)`. */
  function Get<K(==), V>(d: Dict<K, V>, k: K): (r: Option<V>)
    ensures r.None? <==> k !in Keys(d)
    ensures r.Some? ==> exists i :: 0 <= i < |d| && d[i] == (k, r.value)
  {
    if |d| == 0 then None
    else if d[0].0 == k then Some(d[0].1)
    else Get(d[1..], k)
  }

  /** `d[k] = v`. */
  function Set<K(==), V>(d: Dict<K, V>, k: K, v: V): (r: Dict<K, V>)
    ensures k in Keys(d) ==> Keys(r) == Keys(d)
    ensures k !in Keys(d) ==> Keys(r) == Keys(d) + [k]
  {
    if |d| == 0 then [(k, v)]
    else if d[0].0 == k then [(k, v)] + d[1..]
    else [d[0]] + Set(d[1..], k, v)
  }

  lemma SetDistinct<K, V>(d: Dict<K, V>, k: K, v: V)
    requires DistinctKeys(d)
    ensures DistinctKeys(Set(d, k, v))
  {
    var r := Set(d, k, v);
    forall i, j | 0 <= i < j < |r| ensures r[i].0 != r[j].0 {
      assert r[i].0 == Keys(r)[i] && r[j].0 == Keys(r)[j];
      if j < |d| {
        assert Keys(d)[i] == d[i].0 && Keys(d)[j] == d[j].0;
      } else {
        assert Keys(d)[i] == d[i].0;
      }
    }
  }

  /** After `d[k] = v` the key maps to `v`. */
  lemma {:induction false} SetGetSame<K, V>(d: Dict<K, V>, k: K, v: V)
    ensures Get(Set(d, k, v), k) == Some(v)
    decreases |d|
  {
    if |d| > 0 && d[0].0 != k {
      SetGetSame(d[1..], k, v);
      assert Set(d, k, v)[1..] == Set(d[1..], k, v);
    }
  }

  /** `d[k] = v` leaves every other key alone. */
  lemma {:induction false} SetGetOther<K, V>(d: Dict<K, V>, k: K, v: V, k': K)
    requires k' != k
    ensures Get(Set(d, k, v), k') == Get(d, k')
    decreases |d|
  {
    if |d| > 0 {
      if d[0].0 == k {
        assert Set(d, k, v)[1..] == d[1..];
      } else {
        SetGetOther(d[1..], k, v, k');
        assert Set(d, k, v)[1..] == Set(d[1..], k, v);
      }
    }
  }

  /** Lookups after `d[k] = v`, for every key at once. */
  lemma SetGet<K, V>(d: Dict<K, V>, k: K, v: V)
    ensures forall k' :: Get(Set(d, k, v), k') == if k' == k then Some(v) else Get(d, k')
  {
    forall k' ensures Get(Set(d, k, v), k') == if k' == k then Some(v) else Get(d, k') {
      if k' == k {
        SetGetSame(d, k, v);
      } else {
        SetGetOther(d, k, v, k');
      }
    }
  }

  /** The dictionary after assigning `pairs` in order, starting from `d`. */
  function SetAll<K(==), V>(d: Dict<K, V>, pairs: seq<(K, V)>): Dict<K, V>
    decreases |pairs|
  {
    if |pairs| == 0 then d
    else
      var last := pairs[|pairs| - 1];
      Set(SetAll(d, pairs[..|pairs| - 1]), last.0, last.1)
  }

  /** Assigning one more pair. */
  lemma SetAllSnoc<K, V>(d: Dict<K, V>, pairs: seq<(K, V)>, p: (K, V))
    ensures SetAll(d, pairs + [p]) == Set(SetAll(d, pairs), p.0, p.1)
  {
    assert (pairs + [p])[..|pairs|] == pairs;
  }

  /** The value of the last pair in `pairs` with key `k`. */
  function LastValue<K(==), V>(pairs: seq<(K, V)>, k: K): (r: Option<V>)
    ensures r.None? <==> forall i :: 0 <= i < |pairs| ==> pairs[i].0 != k
  {
    if |pairs| == 0 then None
    else if pairs[|pairs| - 1].0 == k then Some(pairs[|pairs| - 1].1)
    else LastValue(pairs[..|pairs| - 1], k)
  }

  /** Later assignments win: each key holds the value of its last pair, or its old value. */
  lemma {:induction false} SetAllLastWins<K, V>(d: Dict<K, V>, pairs: seq<(K, V)>, k: K)
    requires DistinctKeys(d)
    ensures DistinctKeys(SetAll(d, pairs))
    ensures Get(SetAll(d, pairs), k) == (if LastValue(pairs, k).Some? then LastValue(pairs, k) else Get(d, k))
    decreases |pairs|
  {
    if |pairs| > 0 {
      var pre, last := pairs[..|pairs| - 1], pairs[|pairs| - 1];
      SetAllLastWins(d, pre, k);
      SetDistinct(SetAll(d, pre), last.0, last.1);
      if last.0 == k {
        SetGetSame(SetAll(d, pre), k, last.1);
      } else {
        SetGetOther(SetAll(d, pre), last.0, last.1, k);
      }
    }
  }

  /** Every key of the result comes from `d` or from one of the pairs. */
  lemma {:induction false} SetAllKeys<K, V>(d: Dict<K, V>, pairs: seq<(K, V)>, k: K)
    ensures k in Keys(SetAll(d, pairs)) <==> k in Keys(d) || LastValue(pairs, k).Some?
    decreases |pairs|
  {
    if |pairs| > 0 {
      SetAllKeys(d, pairs[..|pairs| - 1], k);
    }
  }

  /** Updating with `a` and then with `b` is updating with `a + b`. */
  lemma {:induction false} SetAllAppend<K, V>(d: Dict<K, V>, a: seq<(K, V)>, b: seq<(K, V)>)
    ensures SetAll(SetAll(d, a), b) == SetAll(d, a + b)
    decreases |b|
  {
    if |b| == 0 {
      assert a + b == a;
    } else {
      var n := |b| - 1;
      SetAllAppend(d, a, b[..n]);
      assert b[..n] + [b[n]] == b;
      assert (a + b[..n]) + [b[n]] == a + b;
      SetAllSnoc(SetAll(d, a), b[..n], b[n]);
      SetAllSnoc(d, a + b[..n], b[n]);
    }
  }
}
