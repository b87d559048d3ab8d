/**
 * The list-aware memo cache (src/ingestion/lru_cache_with_list_support.py).
 *
 * The decorated function takes a list of ids and returns one value per id.
 * The cache is an `OrderedDict` held by the decorator: `keys` is its
 * insertion order and `vals` its contents.  The wrapped function is a
 * parameter `func`; the model records the list it was called with.
 */
module LruCache {
  import opened Wrappers

  /** The only exception the wrapper lets escape. */
  datatype CacheError = KeyError

  /** The state of the `OrderedDict`: keys in order, and the stored values. */
  datatype Od = Od(keys: seq<string>, vals: map<string, string>)

  predicate DistinctKeys(keys: seq<string>) {
    forall i, j :: 0 <= i < j < |keys| ==> keys[i] != keys[j]
  }

  /** The key order and the stored keys agree, and `maxsize` bounds the size. */
  ghost predicate WellFormed(od: Od, maxsize: int) {
    DistinctKeys(od.keys) &&
    (forall k :: k in od.vals <==> k in od.keys) &&
    |od.keys| <= (if maxsize < 0 then 0 else maxsize)
  }

  /** `[id for id in ids if id not in cache]`. */
  function Uncached(ids: seq<string>, vals: map<string, string>): (r: seq<string>)
    ensures forall x :: x in r <==> x in ids && x !in vals
    ensures |r| <= |ids|
  {
    if |ids| == 0 then []
    else (if ids[0] in vals then [] else [ids[0]]) + Uncached(ids[1..], vals)
  }

  /** The uncached ids keep their order and their repetitions: the filter distributes over `+`. */
  lemma {:induction false} UncachedAppend(a: seq<string>, b: seq<string>, vals: map<string, string>)
    ensures Uncached(a + b, vals) == Uncached(a, vals) + Uncached(b, vals)
    decreases |a|
  {
    if |a| > 0 {
      assert (a + b)[1..] == a[1..] + b;
      UncachedAppend(a[1..], b, vals);
    } else {
      assert a + b == b;
    }
  }

  /** `keys` without `k`. */
  function Remove(keys: seq<string>, k: string): (r: seq<string>)
    ensures forall x :: x in r <==> x in keys && x != k
    ensures k !in keys ==> r == keys
  {
    if |keys| == 0 then []
    else if keys[0] == k then Remove(keys[1..], k)
    else [keys[0]] + Remove(keys[1..], k)
  }

  /** Removing a key from distinct keys leaves distinct keys, one fewer when it was there. */
  lemma {:induction false} RemoveDistinct(keys: seq<string>, k: string)
    requires DistinctKeys(keys)
    ensures DistinctKeys(Remove(keys, k))
    ensures k in keys ==> |Remove(keys, k)| == |keys| - 1
    decreases |keys|
  {
    if |keys| > 0 {
      assert DistinctKeys(keys[1..]) by {
        assert forall i :: 0 <= i < |keys| - 1 ==> keys[1..][i] == keys[i + 1];
      }
      RemoveDistinct(keys[1..], k);
      assert keys[0] !in keys[1..] by {
        forall j | 1 <= j < |keys| ensures keys[j] != keys[0] {
        }
      }
      if keys[0] == k {
        assert Remove(keys[1..], k) == keys[1..];
      }
    }
  }

  /** `cache.popitem(last=False)`: drops the oldest entry. */
  function PopOldest(od: Od): (r: Od)
    requires |od.keys| > 0
    ensures r.keys == od.keys[1..]
    ensures r.vals == od.vals - {od.keys[0]}
  {
    Od(od.keys[1..], od.vals - {od.keys[0]})
  }

  /** `cache[id] = name` followed by `cache.move_to_end(id)`. */
  function Assign(od: Od, id: string, name: string): (r: Od)
    ensures r.keys == Remove(od.keys, id) + [id]
    ensures r.vals == od.vals[id := name]
  {
    Od(Remove(od.keys, id) + [id], od.vals[id := name])
  }

  /**
   * One pass of the `zip` loop: evict the oldest entry when the cache is
   * full, then store the pair.  `popitem` on an empty dictionary raises,
   * which happens exactly when `maxsize <= 0`.
   */
  function Put(od: Od, id: string, name: string, maxsize: int): (r: Option<Od>)
    ensures r.None? <==> |od.keys| >= maxsize && |od.keys| == 0
  {
    if |od.keys| >= maxsize then
      if |od.keys| == 0 then None else Some(Assign(PopOldest(od), id, name))
    else Some(Assign(od, id, name))
  }

  /** The whole `for id, name in zip(ids, names)` loop; `zip` stops at the shorter list. */
  function Fill(od: Od, ids: seq<string>, names: seq<string>, maxsize: int): Option<Od>
    decreases |ids|
  {
    if |ids| == 0 || |names| == 0 then Some(od)
    else
      match Put(od, ids[0], names[0], maxsize)
      case None => None
      case Some(od') => Fill(od', ids[1..], names[1..], maxsize)
  }

  /** The loop from pass `i` on: it stops when either list is used up, raises, or goes on from the next cache. */
  lemma FillStep(od: Od, ids: seq<string>, names: seq<string>, i: nat, maxsize: int)
    requires i <= |ids| && i <= |names|
    ensures (i == |ids| || i == |names|) ==> Fill(od, ids[i..], names[i..], maxsize) == Some(od)
    ensures i < |ids| && i < |names| ==>
      Fill(od, ids[i..], names[i..], maxsize) ==
      match Put(od, ids[i], names[i], maxsize)
      case None => None
      case Some(od') => Fill(od', ids[i + 1..], names[i + 1..], maxsize)
  {
    if i < |ids| && i < |names| {
      assert ids[i..][1..] == ids[i + 1..] && names[i..][1..] == names[i + 1..];
    }
  }

  /** `[cache[id] for id in ids]`, which raises on the first missing id. */
  function Lookup(ids: seq<string>, vals: map<string, string>): (r: Result<seq<string>, CacheError>)
    ensures r.Success? <==> forall i :: 0 <= i < |ids| ==> ids[i] in vals
    ensures r.Success? ==> |r.value| == |ids| && forall i :: 0 <= i < |ids| ==> r.value[i] == vals[ids[i]]
  {
    if |ids| == 0 then Success([])
    else if ids[0] !in vals then Failure(KeyError)
    else
      match Lookup(ids[1..], vals)
      case Failure(e) => Failure(e)
      case Success(rest) => Success([vals[ids[0]]] + rest)
  }

  /** The key order and the stored keys agree. */
  ghost predicate Consistent(od: Od) {
    DistinctKeys(od.keys) && forall k :: k in od.vals <==> k in od.keys
  }

  /** Dropping the oldest entry keeps the keys consistent and frees one place. */
  lemma PopOldestConsistent(od: Od)
    requires Consistent(od) && |od.keys| > 0
    ensures Consistent(PopOldest(od)) && |PopOldest(od).keys| == |od.keys| - 1
  {
    var base := PopOldest(od);
    assert forall i, j :: 0 <= i < j < |base.keys| ==> base.keys[i] == od.keys[i + 1] && base.keys[j] == od.keys[j + 1];
    forall k ensures k in base.vals <==> k in base.keys {
      if k in od.keys[1..] {
        var j :| 1 <= j < |od.keys| && od.keys[j] == k;
        assert od.keys[0] != od.keys[j];
      }
      if k in od.vals && k != od.keys[0] {
        var j :| 0 <= j < |od.keys| && od.keys[j] == k;
        assert od.keys[1..][j - 1] == k;
      }
    }
  }

  /** Storing a pair keeps the keys consistent, makes it the newest, and adds a place only for a new key. */
  lemma AssignConsistent(od: Od, id: string, name: string)
    requires Consistent(od)
    ensures var od' := Assign(od, id, name);
      Consistent(od') && od'.keys[|od'.keys| - 1] == id && od'.vals[id] == name
      && |od'.keys| <= |od.keys| + 1 && (id in od.vals ==> |od'.keys| == |od.keys|)
  {
    var r := Remove(od.keys, id);
    RemoveDistinct(od.keys, id);
    assert forall i :: 0 <= i < |r| ==> r[i] != id by {
      forall i | 0 <= i < |r| ensures r[i] != id {
        assert r[i] in r;
      }
    }
  }

  /** Storing a pair keeps the cache well formed, and the stored key is the newest. */
  lemma PutWellFormed(od: Od, id: string, name: string, maxsize: int)
    requires WellFormed(od, maxsize)
    ensures Put(od, id, name, maxsize).Some? ==>
      var od' := Put(od, id, name, maxsize).value;
      WellFormed(od', maxsize) && od'.keys[|od'.keys| - 1] == id && od'.vals[id] == name
  {
    assert Consistent(od);
    if Put(od, id, name, maxsize).Some? {
      if |od.keys| >= maxsize {
        PopOldestConsistent(od);
        AssignConsistent(PopOldest(od), id, name);
      } else {
        AssignConsistent(od, id, name);
      }
    }
  }

  /** The loop keeps the cache well formed, so it never grows past `maxsize`. */
  lemma {:induction false} FillWellFormed(od: Od, ids: seq<string>, names: seq<string>, maxsize: int)
    requires WellFormed(od, maxsize)
    ensures Fill(od, ids, names, maxsize).Some? ==> WellFormed(Fill(od, ids, names, maxsize).value, maxsize)
    decreases |ids|
  {
    if |ids| > 0 && |names| > 0 {
      PutWellFormed(od, ids[0], names[0], maxsize);
      if Put(od, ids[0], names[0], maxsize).Some? {
        FillWellFormed(Put(od, ids[0], names[0], maxsize).value, ids[1..], names[1..], maxsize);
      }
    }
  }

  /** The loop only adds ids it is given: every key afterwards was a key before or one of `ids`. */
  lemma {:induction false} FillKeysFrom(od: Od, ids: seq<string>, names: seq<string>, maxsize: int)
    ensures Fill(od, ids, names, maxsize).Some? ==>
      forall k :: k in Fill(od, ids, names, maxsize).value.vals ==> k in od.vals || k in ids[..if |names| < |ids| then |names| else |ids|]
    decreases |ids|
  {
    if |ids| > 0 && |names| > 0 {
      var p := Put(od, ids[0], names[0], maxsize);
      if p.Some? {
        FillKeysFrom(p.value, ids[1..], names[1..], maxsize);
        var n := if |names| < |ids| then |names| else |ids|;
        assert ids[..n] == [ids[0]] + ids[1..][..n - 1];
      }
    }
  }

  /** With no room at all (`maxsize <= 0`), storing any pair raises. */
  lemma NoRoomRaises(od: Od, ids: seq<string>, names: seq<string>, maxsize: int)
    requires WellFormed(od, maxsize) && maxsize <= 0 && |ids| > 0 && |names| > 0
    ensures Fill(od, ids, names, maxsize).None?
  {
  }

  /** A new id stored into a full cache evicts the oldest entry and becomes the newest. */
  lemma EvictsOldest(od: Od, id: string, name: string, maxsize: int)
    requires WellFormed(od, maxsize) && |od.keys| >= maxsize && |od.keys| > 0 && id !in od.vals
    ensures Put(od, id, name, maxsize) == Some(Od(od.keys[1..] + [id], (od.vals - {od.keys[0]})[id := name]))
  {
    assert id !in od.keys[1..];
  }

  /**
   * `zip` drops the ids `func` gave no answer for: when one of them is not
   * stored by an earlier pair, looking it up afterwards raises.
   */
  lemma ShortAnswerRaises(od: Od, ids: seq<string>, names: seq<string>, maxsize: int, j: nat)
    requires var u := Uncached(ids, od.vals); |names| <= j < |u| && u[j] !in u[..|names|]
    ensures var after := Fill(od, Uncached(ids, od.vals), names, maxsize);
      after.None? || Lookup(ids, after.value.vals).Failure?
  {
    var u := Uncached(ids, od.vals);
    FillKeysFrom(od, u, names, maxsize);
    assert u[j] in u;
  }

  /** With room for one entry, the first of two new ids is evicted by the second, and the call raises. */
  lemma EvictedDuringCall(ids: seq<string>, names: seq<string>)
    requires ids == ["a", "b"] && names == ["x", "y"]
    ensures var after := Fill(Od([], map[]), Uncached(ids, map[]), names, 1);
      after == Some(Od(["b"], map["b" := "y"])) && Lookup(ids, after.value.vals) == Failure(KeyError)
  {
    assert Uncached(ids, map[]) == ids by {
      assert Uncached(ids[1..], map[]) == ["b"];
    }
    var first := Od(["a"], map["a" := "x"]);
    assert Remove([], "a") == [];
    assert map[]["a" := "x"] == map["a" := "x"];
    assert Remove([], "a") + ["a"] == ["a"];
    assert Assign(Od([], map[]), "a", "x") == first;
    assert Put(Od([], map[]), "a", "x", 1) == Some(first);
    var second := Od(["b"], map["b" := "y"]);
    assert map["a" := "x"] - {"a"} == map[];
    assert PopOldest(first) == Od([], map[]);
    assert Remove([], "b") == [];
    assert map[]["b" := "y"] == map["b" := "y"];
    assert Remove([], "b") + ["b"] == ["b"];
    assert Assign(Od([], map[]), "b", "y") == second;
    assert Put(first, "b", "y", 1) == Some(second);
    assert Fill(second, ids[2..], names[2..], 1) == Some(second);
  }

  class Cache {
    const maxsize: int
    var keys: seq<string>
    var vals: map<string, string>

    ghost predicate Valid()
      reads this
    {
      WellFormed(Od(keys, vals), maxsize)
    }

    /** `lru_cache_with_list_support(maxsize)` applied to a function: an empty `OrderedDict`. */
    constructor (maxsize: int)
      ensures Valid() && this.maxsize == maxsize && keys == [] && vals == map[]
    {
      this.maxsize := maxsize;
      keys, vals := [], map[];
    }

    /**
     * `wrapper(ids)`: calls `func` once on the uncached ids, if there are
     * any, stores the answers, then reads every id back from the cache.
     */
    method Call(ids: seq<string>, func: seq<string> -> seq<string>)
      returns (r: Result<seq<string>, CacheError>, calledWith: Option<seq<string>>)
      requires Valid()
      modifies this
      ensures Valid()
      ensures var u := Uncached(ids, old(vals));
        calledWith == (if |u| == 0 then None else Some(u))
      ensures var u := Uncached(ids, old(vals));
        var after := Fill(Od(old(keys), old(vals)), u, func(u), maxsize);
        if |u| == 0 then keys == old(keys) && vals == old(vals) && r == Lookup(ids, vals)
        else if after.None? then r == Failure(KeyError) && keys == [] && vals == map[]
        else Od(keys, vals) == after.value && r == Lookup(ids, vals)
    {
      var uncached := Uncached(ids, vals);
      calledWith := None;
      if |uncached| > 0 {
        var answers := func(uncached);
        calledWith := Some(uncached);
        var ok := StoreAll(uncached, answers);
        if !ok {
          return Failure(KeyError), calledWith;
        }
      }
      r := Lookup(ids, vals);
    }

    /** The `zip` loop of `wrapper`; false when `popitem` raised. */
    method StoreAll(ids: seq<string>, names: seq<string>) returns (ok: bool)
      requires Valid()
      modifies this
      ensures Valid()
      ensures var after := Fill(Od(old(keys), old(vals)), ids, names, maxsize);
        ok == after.Some? &&
        (ok ==> Od(keys, vals) == after.value) &&
        (!ok ==> keys == [] && vals == map[])
    {
      ghost var after := Fill(Od(keys, vals), ids, names, maxsize);
      assert ids[0..] == ids && names[0..] == names;
      var i := 0;
      while i < |ids| && i < |names|
        invariant 0 <= i <= |ids| && i <= |names|
        invariant Valid()
        invariant after == Fill(Od(keys, vals), ids[i..], names[i..], maxsize)
      {
        FillStep(Od(keys, vals), ids, names, i, maxsize);
        var stored := PutPair(ids[i], names[i]);
        if !stored {
          return false;
        }
        i := i + 1;
      }
      FillStep(Od(keys, vals), ids, names, i, maxsize);
      return true;
    }

    /** One pass of the `zip` loop: evict when full, then store; false when `popitem` raised. */
    method PutPair(id: string, name: string) returns (ok: bool)
      requires Valid()
      modifies this
      ensures Valid()
      ensures var p := Put(Od(old(keys), old(vals)), id, name, maxsize);
        ok == p.Some? && (ok ==> Od(keys, vals) == p.value) && (!ok ==> keys == [] && vals == map[])
    {
      PutWellFormed(Od(keys, vals), id, name, maxsize);
      if |keys| >= maxsize {
        if |keys| == 0 {
          assert forall k :: k !in vals;
          return false;
        }
        PopItem();
      }
      Store(id, name);
      return true;
    }

    /** `cache.popitem(last=False)` on a non-empty cache. */
    method PopItem()
      requires |keys| > 0
      modifies this
      ensures Od(keys, vals) == PopOldest(Od(old(keys), old(vals)))
    {
      vals := vals - {keys[0]};
      keys := keys[1..];
    }

    /** `cache[id] = name`, then `cache.move_to_end(id)`. */
    method Store(id: string, name: string)
      modifies this
      ensures Od(keys, vals) == Assign(Od(old(keys), old(vals)), id, name)
    {
      vals := vals[id := name];
      keys := Remove(keys, id) + [id];
    }

    /** `wrapper.clear_cache()`. */
    method Clear()
      modifies this
      ensures Valid() && keys == [] && vals == map[]
    {
      keys, vals := [], map[];
    }

    /** `wrapper.get_cache()`: the stored pairs as a plain `dict`, a value of its own. */
    method GetCache() returns (m: map<string, string>)
      requires Valid()
      ensures m == vals && m.Keys == set k | k in keys
    {
      m := vals;
    }
  }

  /** Every id cached: the cache answers alone and nothing changes. */
  lemma {:induction false} AllCachedNoCall(ids: seq<string>, vals: map<string, string>)
    requires forall i :: 0 <= i < |ids| ==> ids[i] in vals
    ensures Uncached(ids, vals) == []
    ensures Lookup(ids, vals).Success?
    decreases |ids|
  {
    if |ids| > 0 {
      AllCachedNoCall(ids[1..], vals);
    }
  }
}
