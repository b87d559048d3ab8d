/**
 * The look-up tables of the analysis (src/analysis/standardization_resources.py),
 * all derived from the MeSH lookup: optionally restricted to some categories,
 * keyed case-insensitively, from descriptor id to its shortest term, from
 * term to id and from tree number to its shortest term.
 *
 * The MeSH lookup is taken as its items in dictionary order, since the
 * id and tree-number tables keep the first of several equally short terms.
 */
module StandardizationResources {
  import opened Wrappers
  import opened Strings
  import opened PyDict
  import opened MeshVocabulary
  import Seqs

  type Items = Dict<String, MeshEntry>

  /** The dictionary behind the items, for the category test. */
  function ToMap(items: Items): (m: map<String, MeshEntry>)
    ensures forall k :: MapGet(m, k) == Get(items, k)
    decreases |items|
  {
    if |items| == 0 then map[] else ToMap(items[1..])[items[0].0 := items[0].1]
  }

  /** The items whose key is in one of the categories, in order. */
  function InCategories(items: Items, lookup: map<String, MeshEntry>, prefixes: seq<String>): (r: Items)
    ensures |r| <= |items|
    ensures forall p :: p in r <==> p in items && IsTermInOneOfCategories(p.0, lookup, prefixes)
    decreases |items|
  {
    if |items| == 0 then []
    else
      (if IsTermInOneOfCategories(items[0].0, lookup, prefixes) then [items[0]] else [])
      + InCategories(items[1..], lookup, prefixes)
  }

  /** Filtering keeps the order of the items, so distinct keys stay distinct. */
  lemma {:induction false} InCategoriesSubsequence(items: Items, lookup: map<String, MeshEntry>, prefixes: seq<String>)
    requires DistinctKeys(items)
    ensures DistinctKeys(InCategories(items, lookup, prefixes))
    decreases |items|
  {
    if |items| > 0 {
      var rest := InCategories(items[1..], lookup, prefixes);
      InCategoriesSubsequence(items[1..], lookup, prefixes);
      forall p | p in rest ensures p.0 != items[0].0 {
        var j :| 0 <= j < |items[1..]| && items[1..][j] == p;
        assert items[j + 1] == p;
      }
      if IsTermInOneOfCategories(items[0].0, lookup, prefixes) {
        ConsDistinctKeys(items[0], rest);
      } else {
        assert [] + rest == rest;
      }
    }
  }

  /** A pair whose key is not among the keys of distinct items can go in front. */
  lemma ConsDistinctKeys(x: (String, MeshEntry), rest: Items)
    requires DistinctKeys(rest) && forall p :: p in rest ==> p.0 != x.0
    ensures DistinctKeys([x] + rest)
  {
    var all := [x] + rest;
    forall i, j | 0 <= i < j < |all| ensures all[i].0 != all[j].0 {
      assert all[j] == rest[j - 1] && rest[j - 1] in rest;
      if i > 0 {
        assert all[i] == rest[i - 1];
      }
    }
  }

  /**
   * The lookup the tables are built from: with a category filter, the items
   * whose key is in one of the categories of the whole lookup; without one,
   * the lookup itself.
   */
  function Filtered(items: Items, categoryFilter: Option<seq<String>>): Items {
    if categoryFilter.None? then items else InCategories(items, ToMap(items), categoryFilter.value)
  }

  /** With a filter, exactly the entries whose key passes the category test remain. */
  lemma FilteredEntries(items: Items, categoryFilter: Option<seq<String>>, p: (String, MeshEntry))
    ensures categoryFilter.None? ==> Filtered(items, categoryFilter) == items
    ensures categoryFilter.Some? ==>
      (p in Filtered(items, categoryFilter) <==>
        p in items && IsTermInOneOfCategories(p.0, ToMap(items), categoryFilter.value))
    ensures DistinctKeys(items) ==> DistinctKeys(Filtered(items, categoryFilter))
  {
    if DistinctKeys(items) && categoryFilter.Some? {
      InCategoriesSubsequence(items, ToMap(items), categoryFilter.value);
    }
  }

  /** The items re-keyed by `f`; a later key that collides overwrites. */
  function ReKeyed(items: Items, f: String -> String): map<String, MeshEntry>
    decreases |items|
  {
    if |items| == 0 then map[]
    else
      var last := items[|items| - 1];
      ReKeyed(items[..|items| - 1], f)[f(last.0) := last.1]
  }

  /** `{key.strip().lower(): entry ...}`: normalised keys, a later colliding key overwrites. */
  function NormalizedKeys(items: Items): map<String, MeshEntry> {
    ReKeyed(items, Normalize)
  }

  lemma {:induction false} ReKeyedLastWins(items: Items, f: String -> String, t: String)
    ensures t in ReKeyed(items, f) <==> exists i :: 0 <= i < |items| && f(items[i].0) == t
    ensures t in ReKeyed(items, f) ==>
      exists i :: 0 <= i < |items| && f(items[i].0) == t && ReKeyed(items, f)[t] == items[i].1
        && forall j :: i < j < |items| ==> f(items[j].0) != t
  {
    ReKeyedKeys(items, f, t);
    if t in ReKeyed(items, f) {
      var i := ReKeyedLast(items, f, t);
    }
  }

  /** A re-keyed table holds exactly the images of the keys. */
  lemma {:induction false} ReKeyedKeys(items: Items, f: String -> String, t: String)
    ensures t in ReKeyed(items, f) <==> exists i :: 0 <= i < |items| && f(items[i].0) == t
    decreases |items|
  {
    if |items| > 0 {
      var n := |items| - 1;
      var pre := items[..n];
      ReKeyedKeys(pre, f, t);
      assert forall i :: 0 <= i < |pre| ==> pre[i] == items[i];
      if t in ReKeyed(pre, f) {
        var i :| 0 <= i < |pre| && f(pre[i].0) == t;
        assert f(items[i].0) == t;
      }
    }
  }

  /** The entry stored for an image is that of the last key mapped to it. */
  lemma {:induction false} ReKeyedLast(items: Items, f: String -> String, t: String) returns (i: nat)
    requires t in ReKeyed(items, f)
    ensures i < |items| && f(items[i].0) == t && ReKeyed(items, f)[t] == items[i].1
    ensures forall j :: i < j < |items| ==> f(items[j].0) != t
    decreases |items|
  {
    var n := |items| - 1;
    var pre := items[..n];
    if f(items[n].0) == t {
      i := n;
    } else {
      i := ReKeyedLast(pre, f, t);
      assert pre[i] == items[i];
      assert forall j :: i < j < n ==> pre[j] == items[j];
    }
  }

  /**
   * A normalised term is present exactly when some key normalises to it, and
   * it holds the entry of the last such key.
   */
  lemma NormalizedKeysLastWins(items: Items, t: String)
    ensures t in NormalizedKeys(items) <==> exists i :: 0 <= i < |items| && Normalize(items[i].0) == t
    ensures t in NormalizedKeys(items) ==>
      exists i :: 0 <= i < |items| && Normalize(items[i].0) == t && NormalizedKeys(items)[t] == items[i].1
        && forall j :: i < j < |items| ==> Normalize(items[j].0) != t
  {
    ReKeyedLastWins(items, Normalize, t);
  }

  /** `mesh_term_to_id_map`: the id of each normalised term's entry. */
  function TermToId(items: Items): (m: map<String, String>)
    ensures m.Keys == NormalizedKeys(items).Keys
    ensures forall t :: t in m ==> m[t] == NormalizedKeys(items)[t].id
  {
    var ci := NormalizedKeys(items);
    map t | t in ci :: ci[t].id
  }

  /**
   * The id table after the items, with `f` applied to the stored keys: an id
   * is (re)assigned when it is new or when the raw key is strictly shorter
   * than the term stored so far.
   */
  function IdMap(items: Items, f: String -> String): map<String, String>
    decreases |items|
  {
    if |items| == 0 then map[]
    else
      var m := IdMap(items[..|items| - 1], f);
      var key, entry := items[|items| - 1].0, items[|items| - 1].1;
      if entry.id !in m || |key| < |m[entry.id]| then m[entry.id := f(key)] else m
  }

  /** `mesh_id_to_term_map`: ids to normalised keys. */
  function IdToTerm(items: Items): map<String, String> {
    IdMap(items, Normalize)
  }

  lemma {:induction false} IdMapDomain(items: Items, f: String -> String, id: String)
    ensures id in IdMap(items, f) <==> exists i :: 0 <= i < |items| && items[i].1.id == id
    ensures id in IdMap(items, f) ==>
      exists i :: 0 <= i < |items| && items[i].1.id == id && IdMap(items, f)[id] == f(items[i].0)
    decreases |items|
  {
    if |items| > 0 {
      var pre := items[..|items| - 1];
      IdMapDomain(pre, f, id);
      assert forall i :: 0 <= i < |pre| ==> pre[i] == items[i];
    }
  }

  /** Every id of the lookup gets a term, which is the normalised key of an item with that id. */
  lemma IdToTermDomain(items: Items, id: String)
    ensures id in IdToTerm(items) <==> exists i :: 0 <= i < |items| && items[i].1.id == id
    ensures id in IdToTerm(items) ==>
      exists i :: 0 <= i < |items| && items[i].1.id == id && IdToTerm(items)[id] == Normalize(items[i].0)
  {
    IdMapDomain(items, Normalize, id);
  }

  /**
   * Item `i` has id `id`, is no longer than any item with that id and
   * strictly shorter than those before it.
   */
  ghost predicate ShortestWithId(items: Items, i: nat, id: String)
    requires i < |items|
  {
    items[i].1.id == id
    && (forall j :: 0 <= j < |items| && items[j].1.id == id ==> |items[i].0| <= |items[j].0|)
    && (forall j :: 0 <= j < i && items[j].1.id == id ==> |items[i].0| < |items[j].0|)
  }

  lemma ShortestWithIdKept(items: Items, i: nat, id: String)
    requires i < |items| - 1 && ShortestWithId(items[..|items| - 1], i, id)
    requires items[|items| - 1].1.id == id ==> |items[i].0| <= |items[|items| - 1].0|
    ensures ShortestWithId(items, i, id)
  {
    var pre := items[..|items| - 1];
    assert forall j :: 0 <= j < |pre| ==> pre[j] == items[j];
  }

  lemma ShortestWithIdLast(items: Items, id: String)
    requires |items| > 0 && items[|items| - 1].1.id == id
    requires forall j :: 0 <= j < |items| - 1 && items[j].1.id == id ==> |items[|items| - 1].0| < |items[j].0|
    ensures ShortestWithId(items, |items| - 1, id)
  {
  }

  lemma {:induction false} IdMapShortest(items: Items, f: String -> String, id: String)
    requires forall i :: 0 <= i < |items| ==> f(items[i].0) == items[i].0
    requires id in IdMap(items, f)
    ensures exists i :: 0 <= i < |items| && IdMap(items, f)[id] == items[i].0 && ShortestWithId(items, i, id)
    decreases |items|
  {
    var pre := items[..|items| - 1];
    var key, entry := items[|items| - 1].0, items[|items| - 1].1;
    assert forall i :: 0 <= i < |pre| ==> pre[i] == items[i];
    var m := IdMap(pre, f);
    if id in m {
      IdMapShortest(pre, f, id);
      var i :| 0 <= i < |pre| && m[id] == pre[i].0 && ShortestWithId(pre, i, id);
      if entry.id == id && |key| < |m[id]| {
        assert IdMap(items, f)[id] == key;
        forall j | 0 <= j < |items| - 1 && items[j].1.id == id ensures |key| < |items[j].0| {
          assert pre[j].1.id == id;
        }
        ShortestWithIdLast(items, id);
      } else {
        assert IdMap(items, f)[id] == items[i].0;
        ShortestWithIdKept(items, i, id);
      }
    } else {
      IdMapDomain(pre, f, id);
      assert IdMap(items, f)[id] == key;
      ShortestWithIdLast(items, id);
    }
  }

  /** The keys are already normalised (as in the lookup built from the MeSH records). */
  ghost predicate NormalizedItems(items: Items) {
    forall i :: 0 <= i < |items| ==> Normalize(items[i].0) == items[i].0
  }

  /**
   * With normalised keys, an id maps to its shortest key, the first of
   * several equally short ones.
   */
  lemma IdToTermShortest(items: Items, id: String)
    requires NormalizedItems(items)
    requires id in IdToTerm(items)
    ensures exists i :: 0 <= i < |items| && IdToTerm(items)[id] == items[i].0 && ShortestWithId(items, i, id)
  {
    IdMapShortest(items, Normalize, id);
  }

  /** The inner step: a term is set for each of its tree numbers that is new or holds a longer term. */
  function Absorb(m: map<String, String>, term: String, tns: set<String>): (r: map<String, String>)
    ensures r.Keys == m.Keys + tns
  {
    map tn | tn in m.Keys + tns :: if tn in tns && (tn !in m || |term| < |m[tn]|) then term else m[tn]
  }

  /** `mesh_tree_number_to_term_map` after the items. */
  function TreeNumberToTerm(items: Items): map<String, String>
    decreases |items|
  {
    if |items| == 0 then map[]
    else
      var last := items[|items| - 1];
      Absorb(TreeNumberToTerm(items[..|items| - 1]), last.0, last.1.treeNumbers)
  }

  /**
   * Item `i` has tree number `tn`, is no longer than any item with it and
   * strictly shorter than those before it.
   */
  ghost predicate ShortestWithTreeNumber(items: Items, i: nat, tn: String)
    requires i < |items|
  {
    tn in items[i].1.treeNumbers
    && (forall j :: 0 <= j < |items| && tn in items[j].1.treeNumbers ==> |items[i].0| <= |items[j].0|)
    && (forall j :: 0 <= j < i && tn in items[j].1.treeNumbers ==> |items[i].0| < |items[j].0|)
  }

  lemma ShortestWithTreeNumberKept(items: Items, i: nat, tn: String)
    requires i < |items| - 1 && ShortestWithTreeNumber(items[..|items| - 1], i, tn)
    requires tn in items[|items| - 1].1.treeNumbers ==> |items[i].0| <= |items[|items| - 1].0|
    ensures ShortestWithTreeNumber(items, i, tn)
  {
    var pre := items[..|items| - 1];
    assert forall j :: 0 <= j < |pre| ==> pre[j] == items[j];
  }

  lemma ShortestWithTreeNumberLast(items: Items, tn: String)
    requires |items| > 0 && tn in items[|items| - 1].1.treeNumbers
    requires forall j :: 0 <= j < |items| - 1 && tn in items[j].1.treeNumbers ==>
      |items[|items| - 1].0| < |items[j].0|
    ensures ShortestWithTreeNumber(items, |items| - 1, tn)
  {
  }

  /**
   * Every tree number of the lookup gets a term: a shortest key whose
   * entry has that tree number, the first of several equally short ones.
   */
  lemma {:induction false} TreeNumberToTermShortest(items: Items, tn: String)
    ensures tn in TreeNumberToTerm(items) <==> exists i :: 0 <= i < |items| && tn in items[i].1.treeNumbers
    ensures tn in TreeNumberToTerm(items) ==>
      exists i :: 0 <= i < |items| && TreeNumberToTerm(items)[tn] == items[i].0 && ShortestWithTreeNumber(items, i, tn)
    decreases |items|
  {
    if |items| > 0 {
      var pre := items[..|items| - 1];
      var term, tns := items[|items| - 1].0, items[|items| - 1].1.treeNumbers;
      assert forall i :: 0 <= i < |pre| ==> pre[i] == items[i];
      TreeNumberToTermShortest(pre, tn);
      var m := TreeNumberToTerm(pre);
      if tn in m {
        var i :| 0 <= i < |pre| && m[tn] == pre[i].0 && ShortestWithTreeNumber(pre, i, tn);
        if tn in tns && |term| < |m[tn]| {
          assert TreeNumberToTerm(items)[tn] == term;
          forall j | 0 <= j < |items| - 1 && tn in items[j].1.treeNumbers ensures |term| < |items[j].0| {
            assert tn in pre[j].1.treeNumbers;
          }
          ShortestWithTreeNumberLast(items, tn);
        } else {
          assert TreeNumberToTerm(items)[tn] == items[i].0;
          ShortestWithTreeNumberKept(items, i, tn);
        }
      } else if tn in tns {
        assert TreeNumberToTerm(items)[tn] == term;
        ShortestWithTreeNumberLast(items, tn);
      }
    }
  }

  /** Absorbing one more tree number of the same term. */
  lemma AbsorbStep(m: map<String, String>, term: String, done: set<String>, tn: String)
    requires tn !in done
    ensures Absorb(m, term, done + {tn}) ==
      Absorb(m, term, done)[tn := if tn !in m || |term| < |m[tn]| then term else m[tn]]
  {
  }

  /** One iteration of the inner loop: the map after `done` becomes the map after `done + {tn}`. */
  lemma AbsorbUpdate(m0: map<String, String>, term: String, done: set<String>, tn: String, m: map<String, String>)
    requires tn !in done && m == Absorb(m0, term, done)
    ensures (if tn !in m || |term| < |m[tn]| then m[tn := term] else m) == Absorb(m0, term, done + {tn})
  {
    AbsorbStep(m0, term, done, tn);
    assert (tn in m0.Keys + done) == (tn in m0) && (tn in m0 ==> m[tn] == m0[tn]);
  }

  /** The `mesh_id_to_term_map` loop. */
  method BuildIdToTerm(items: Items) returns (m: map<String, String>)
    ensures m == IdToTerm(items)
  {
    m := map[];
    var i := 0;
    while i < |items|
      invariant 0 <= i <= |items|
      invariant m == IdToTerm(items[..i])
    {
      var key, entry := items[i].0, items[i].1;
      assert items[..i + 1][..i] == items[..i];
      if entry.id !in m || |key| < |m[entry.id]| {
        m := m[entry.id := Normalize(key)];
      }
      i := i + 1;
    }
    assert items[..i] == items;
  }

  /** The inner loop over the tree numbers of one entry, in an unspecified order. */
  method AbsorbTreeNumbers(m0: map<String, String>, term: String, tns: set<String>) returns (m: map<String, String>)
    ensures m == Absorb(m0, term, tns)
  {
    m := m0;
    var remaining := tns;
    ghost var done: set<String> := {};
    AbsorbNothing(m0, term);
    while remaining != {}
      invariant done + remaining == tns && done !! remaining
      invariant m == Absorb(m0, term, done)
      decreases |remaining|
    {
      var tn :| tn in remaining;
      m := AbsorbOne(m0, term, done, tn, m);
      Seqs.MoveOne(tns, done, remaining, tn);
      done := done + {tn};
      remaining := remaining - {tn};
    }
    Seqs.MovedAll(tns, done, remaining);
  }

  /** Absorbing no tree numbers changes nothing. */
  lemma AbsorbNothing(m: map<String, String>, term: String)
    ensures Absorb(m, term, {}) == m
  {
  }

  /** The body of the inner loop: keep the shorter of the mapped term and `term` for `tn`. */
  method AbsorbOne(ghost m0: map<String, String>, term: String, ghost done: set<String>, tn: String, m: map<String, String>)
    returns (r: map<String, String>)
    requires tn !in done && m == Absorb(m0, term, done)
    ensures r == Absorb(m0, term, done + {tn})
  {
    AbsorbUpdate(m0, term, done, tn, m);
    r := if tn !in m || |term| < |m[tn]| then m[tn := term] else m;
  }

  /** The `mesh_tree_number_to_term_map` loop. */
  method BuildTreeNumberToTerm(items: Items) returns (m: map<String, String>)
    ensures m == TreeNumberToTerm(items)
  {
    m := map[];
    var i := 0;
    while i < |items|
      invariant 0 <= i <= |items|
      invariant m == TreeNumberToTerm(items[..i])
    {
      assert items[..i + 1][..i] == items[..i];
      m := AbsorbTreeNumbers(m, items[i].0, items[i].1.treeNumbers);
      i := i + 1;
    }
    assert items[..i] == items;
  }

  /** `StandardizationResources(mesh_lookup, category_filter)`. */
  class Resources {
    var meshLookup: Items
    var caseInsensitiveMeshLookup: map<String, MeshEntry>
    var meshIdToTerm: map<String, String>
    var meshTermToId: map<String, String>
    var meshTreeNumberToTerm: map<String, String>

    constructor(lookup: Items, categoryFilter: Option<seq<String>>)
      ensures meshLookup == Filtered(lookup, categoryFilter)
      ensures caseInsensitiveMeshLookup == NormalizedKeys(meshLookup)
      ensures meshIdToTerm == IdToTerm(meshLookup)
      ensures meshTermToId == TermToId(meshLookup)
      ensures meshTreeNumberToTerm == TreeNumberToTerm(meshLookup)
    {
      var items := if categoryFilter.None? then lookup
        else InCategories(lookup, ToMap(lookup), categoryFilter.value);
      var idToTerm := BuildIdToTerm(items);
      var treeNumberToTerm := BuildTreeNumberToTerm(items);
      meshLookup := items;
      caseInsensitiveMeshLookup := NormalizedKeys(items);
      meshIdToTerm := idToTerm;
      meshTermToId := TermToId(items);
      meshTreeNumberToTerm := treeNumberToTerm;
    }
  }
}
