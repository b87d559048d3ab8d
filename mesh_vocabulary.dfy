/**
 * The MeSH lookup table (src/standardization/mesh_vocabulary.py): every
 * normalised name and entry term of a descriptor record maps to an entry
 * holding the descriptor id and the union of tree numbers, and a term
 * belongs to a category when one of its tree numbers starts with the
 * category's prefix.
 */
module MeshVocabulary {
  import opened Wrappers
  import opened Strings
  import opened PyDict
  import Seqs

  /**
   * A `<DescriptorRecord>` of the MeSH XML, reduced to the texts the lookup
   * reads: the `DescriptorName/String` (None when the element is missing),
   * the `String` of each `TermList/Term` (None for a term without one), the
   * `TreeNumber` texts and the `DescriptorUI` texts ("" for an element
   * without text).
   */
  datatype MeshRecord = MeshRecord(
    descriptorName: Option<String>,
    entryTerms: seq<Option<String>>,
    treeNumbers: seq<String>,
    descriptorUIs: seq<String>)

  /** `MeshEntry`: the term it was created for, its tree numbers and the descriptor id. */
  datatype MeshEntry = MeshEntry(term: String, treeNumbers: set<String>, id: String)

  /** `get_all_synonyms_for_mesh_entry(record)`. */
  function Synonyms(r: MeshRecord): (s: set<String>)
    ensures r.descriptorName.None? ==> s == {}
    ensures r.descriptorName.Some? ==> Normalize(r.descriptorName.value) in s
  {
    if r.descriptorName.None? then {}
    else
      {Normalize(r.descriptorName.value)}
      + set k | 0 <= k < |r.entryTerms| && r.entryTerms[k].Some? :: Normalize(r.entryTerms[k].value)
  }

  /** Synonyms are already in normal form, so looking them up again finds them. */
  lemma SynonymsNormalized(r: MeshRecord, t: String)
    requires t in Synonyms(r)
    ensures Normalize(t) == t
    ensures r.descriptorName.Some?
  {
    if t == Normalize(r.descriptorName.value) {
      NormalizeIdempotent(r.descriptorName.value);
    } else {
      var k :| 0 <= k < |r.entryTerms| && r.entryTerms[k].Some? && t == Normalize(r.entryTerms[k].value);
      NormalizeIdempotent(r.entryTerms[k].value);
    }
  }

  /** The set of stripped tree numbers with text. */
  function RecordTreeNumbers(r: MeshRecord): set<String> {
    set k | 0 <= k < |r.treeNumbers| && r.treeNumbers[k] != "" :: Strip(r.treeNumbers[k])
  }

  /** The texts that are not empty, in order (`[x for x in xs if x]`). */
  function NonEmptyTexts(xs: seq<String>): (r: seq<String>)
    ensures forall x :: x in r ==> x in xs && x != ""
    ensures |r| > 0 <==> exists k :: 0 <= k < |xs| && xs[k] != ""
    ensures |r| > 0 ==> exists k :: 0 <= k < |xs| && xs[k] == r[0] && forall j :: 0 <= j < k ==> xs[j] == ""
    decreases |xs|
  {
    if |xs| == 0 then []
    else if xs[0] == "" then
      var rest := NonEmptyTexts(xs[1..]);
      assert forall k :: 0 <= k < |xs[1..]| ==> xs[1..][k] == xs[k + 1];
      rest
    else [xs[0]] + NonEmptyTexts(xs[1..])
  }

  /** `id_numbers`. */
  function IdNumbers(r: MeshRecord): seq<String> {
    NonEmptyTexts(r.descriptorUIs)
  }

  /** What a record adds to the lookup: its synonyms, tree numbers and ids. */
  datatype Contribution = Contribution(terms: set<String>, treeNumbers: set<String>, ids: seq<String>)

  function Summary(r: MeshRecord): Contribution {
    Contribution(Synonyms(r), RecordTreeNumbers(r), IdNumbers(r))
  }

  function Summaries(records: seq<MeshRecord>): (cs: seq<Contribution>)
    ensures |cs| == |records| && forall i :: 0 <= i < |records| ==> cs[i] == Summary(records[i])
  {
    seq(|records|, i requires 0 <= i < |records| => Summary(records[i]))
  }

  /** A record takes part only when it has a tree number and an id; it then adds each of its terms. */
  predicate Adds(c: Contribution, t: String) {
    c.treeNumbers != {} && |c.ids| > 0 && t in c.terms
  }

  predicate Contributes(r: MeshRecord, t: String) {
    Adds(Summary(r), t)
  }

  /** The id the entry of `t` is created with: that of the first record adding `t`. */
  function FirstId(cs: seq<Contribution>, t: String): Option<String>
    decreases |cs|
  {
    if |cs| == 0 then None
    else
      var f := FirstId(cs[..|cs| - 1], t);
      var c := cs[|cs| - 1];
      if f.Some? then f
      else if Adds(c, t) then Some(c.ids[0])
      else None
  }

  /** The tree numbers accumulated for `t`. */
  function TreeNumbersOf(cs: seq<Contribution>, t: String): set<String>
    decreases |cs|
  {
    if |cs| == 0 then {}
    else
      var c := cs[|cs| - 1];
      TreeNumbersOf(cs[..|cs| - 1], t) + (if Adds(c, t) then c.treeNumbers else {})
  }

  /** The entry the lookup built from the records holds for `t`. */
  function ExpectedEntry(cs: seq<Contribution>, t: String): Option<MeshEntry> {
    var f := FirstId(cs, t);
    if f.None? then None else Some(MeshEntry(t, TreeNumbersOf(cs, t), f.value))
  }

  /**
   * The id of a term is that of the first record that adds it; a term is in
   * the lookup exactly when some record adds it.
   */
  lemma {:induction false} FirstIdIsFirstRecord(cs: seq<Contribution>, t: String)
    ensures FirstId(cs, t).Some? <==> exists i :: 0 <= i < |cs| && Adds(cs[i], t)
    ensures FirstId(cs, t).Some? ==>
      exists i :: 0 <= i < |cs| && Adds(cs[i], t) && FirstId(cs, t).value == cs[i].ids[0]
        && forall j :: 0 <= j < i ==> !Adds(cs[j], t)
    decreases |cs|
  {
    if |cs| > 0 {
      var pre := cs[..|cs| - 1];
      FirstIdIsFirstRecord(pre, t);
      assert forall i :: 0 <= i < |pre| ==> pre[i] == cs[i];
    }
  }

  /** The tree numbers of a term are the union of those of the records that add it. */
  lemma {:induction false} TreeNumbersOfUnion(cs: seq<Contribution>, t: String, tn: String)
    ensures tn in TreeNumbersOf(cs, t) <==> exists i :: 0 <= i < |cs| && Adds(cs[i], t) && tn in cs[i].treeNumbers
    decreases |cs|
  {
    if |cs| > 0 {
      var pre := cs[..|cs| - 1];
      TreeNumbersOfUnion(pre, t, tn);
      assert forall i :: 0 <= i < |pre| ==> pre[i] == cs[i];
    }
  }

  /** Adding record `i` changes only the entries of the terms it adds. */
  lemma ExpectedStep(cs: seq<Contribution>, i: nat, t: String)
    requires i < |cs|
    ensures !Adds(cs[i], t) ==> ExpectedEntry(cs[..i + 1], t) == ExpectedEntry(cs[..i], t)
    ensures Adds(cs[i], t) ==> ExpectedEntry(cs[..i + 1], t) == Some(MeshEntry(t,
      TreeNumbersOf(cs[..i], t) + cs[i].treeNumbers,
      if FirstId(cs[..i], t).Some? then FirstId(cs[..i], t).value else cs[i].ids[0]))
  {
    var pre, c := cs[..i + 1][..i], cs[..i + 1][i];
    assert pre == cs[..i] && c == cs[i];
    assert FirstId(cs[..i + 1], t) == if FirstId(pre, t).Some? then FirstId(pre, t)
      else if Adds(c, t) then Some(c.ids[0]) else None;
    assert TreeNumbersOf(cs[..i + 1], t) == TreeNumbersOf(pre, t) + (if Adds(c, t) then c.treeNumbers else {});
    if !Adds(c, t) {
      assert TreeNumbersOf(cs[..i + 1], t) == TreeNumbersOf(pre, t);
      assert FirstId(cs[..i + 1], t) == FirstId(pre, t);
    }
  }

  /** The entry a term of record `i` gets: a fresh one with the record's id if new, and the record's tree numbers added. */
  lemma EntryUpdate(cs: seq<Contribution>, i: nat, term: String, found: Option<MeshEntry>)
    requires i < |cs| && Adds(cs[i], term) && found == ExpectedEntry(cs[..i], term)
    ensures var e := if found.None? then MeshEntry(term, {}, cs[i].ids[0]) else found.value;
      ExpectedEntry(cs[..i + 1], term) == Some(e.(treeNumbers := e.treeNumbers + cs[i].treeNumbers))
  {
    ExpectedStep(cs, i, term);
    if found.None? {
      NoIdNoTreeNumbers(cs[..i], term);
    }
  }

  /** A term no record has added has no tree numbers either. */
  lemma {:induction false} NoIdNoTreeNumbers(cs: seq<Contribution>, t: String)
    requires FirstId(cs, t).None?
    ensures TreeNumbersOf(cs, t) == {}
    decreases |cs|
  {
    if |cs| > 0 {
      NoIdNoTreeNumbers(cs[..|cs| - 1], t);
    }
  }

  /** Storing the updated entry of one more term. */
  lemma LookupStep(lookup: map<String, MeshEntry>, cs: seq<Contribution>, i: nat, done: set<String>,
                   term: String, entry: MeshEntry)
    requires i < |cs|
    requires forall t :: MapGet(lookup, t) == if t in done then ExpectedEntry(cs[..i + 1], t) else ExpectedEntry(cs[..i], t)
    requires ExpectedEntry(cs[..i + 1], term) == Some(entry)
    ensures forall t :: MapGet(lookup[term := entry], t) ==
               if t in done + {term} then ExpectedEntry(cs[..i + 1], t) else ExpectedEntry(cs[..i], t)
  {
  }

  /**
   * `build_mesh_lookup` over the records of the file: records without tree
   * numbers or id are skipped; a new term gets an entry with the record's
   * first id, and every term of the record gains the record's tree numbers.
   * The synonyms of a record are visited in an unspecified order.
   */
  method BuildMeshLookup(records: seq<MeshRecord>) returns (lookup: map<String, MeshEntry>)
    ensures forall t :: MapGet(lookup, t) == ExpectedEntry(Summaries(records), t)
  {
    ghost var cs := Summaries(records);
    lookup := map[];
    var i := 0;
    while i < |records|
      invariant 0 <= i <= |records|
      invariant forall t :: MapGet(lookup, t) == ExpectedEntry(cs[..i], t)
    {
      var record := records[i];
      var treeNumbers := RecordTreeNumbers(record);
      var idNumbers := NonEmptyTexts(record.descriptorUIs);
      var terms := Synonyms(record);
      assert cs[i] == Contribution(terms, treeNumbers, idNumbers);
      if treeNumbers == {} || |idNumbers| == 0 {
        forall t ensures ExpectedEntry(cs[..i + 1], t) == ExpectedEntry(cs[..i], t) {
          ExpectedStep(cs, i, t);
        }
        i := i + 1;
        continue;
      }
      lookup := AddRecordTerms(lookup, terms, treeNumbers, idNumbers, cs, i);
      i := i + 1;
    }
    assert cs[..i] == cs;
  }

  /** The inner loop of `build_mesh_lookup`: the terms of record `i`, in an unspecified order. */
  method AddRecordTerms(lookup: map<String, MeshEntry>, terms: set<String>, treeNumbers: set<String>,
                        idNumbers: seq<String>, ghost cs: seq<Contribution>, ghost i: nat)
    returns (r: map<String, MeshEntry>)
    requires i < |cs| && cs[i] == Contribution(terms, treeNumbers, idNumbers)
    requires treeNumbers != {} && |idNumbers| > 0
    requires forall t :: MapGet(lookup, t) == ExpectedEntry(cs[..i], t)
    ensures forall t :: MapGet(r, t) == ExpectedEntry(cs[..i + 1], t)
  {
    r := lookup;
    var remaining := terms;
    var done: set<String> := {};
    while remaining != {}
      invariant done + remaining == terms && done !! remaining
      invariant forall t :: MapGet(r, t) ==
                  if t in done then ExpectedEntry(cs[..i + 1], t) else ExpectedEntry(cs[..i], t)
      decreases |remaining|
    {
      var term :| term in remaining;
      Seqs.MoveOne(terms, done, remaining, term);
      EntryUpdate(cs, i, term, MapGet(r, term));
      var entry: MeshEntry;
      if MapGet(r, term).None? {
        entry := MeshEntry(term, {}, idNumbers[0]);
      } else {
        entry := MapGet(r, term).value;
      }
      entry := entry.(treeNumbers := entry.treeNumbers + treeNumbers);
      LookupStep(r, cs, i, done, term, entry);
      r := r[term := entry];
      remaining := remaining - {term};
      done := done + {term};
    }
    Seqs.MovedAll(terms, done, remaining);
    forall t ensures MapGet(r, t) == ExpectedEntry(cs[..i + 1], t) {
      ExpectedStep(cs, i, t);
    }
  }

  /**
   * `is_term_in_one_of_categories(term, mesh_lookup, category_tree_numbers)`:
   * the normalised term is looked up, and some tree number of its entry
   * must start with some category prefix.
   */
  predicate IsTermInOneOfCategories(term: String, lookup: map<String, MeshEntry>, prefixes: seq<String>) {
    if term == "" then false
    else match MapGet(lookup, Normalize(term))
      case None => false
      case Some(e) => exists tn, k :: tn in e.treeNumbers && 0 <= k < |prefixes| && StartsWith(tn, prefixes[k])
  }

  /** Case and surrounding white space of the term do not matter. */
  lemma CategoriesIgnoreCase(term: String, lookup: map<String, MeshEntry>, prefixes: seq<String>)
    requires Normalize(term) != ""
    ensures IsTermInOneOfCategories(Normalize(term), lookup, prefixes) == IsTermInOneOfCategories(term, lookup, prefixes)
  {
    assert term != "";
    NormalizeIdempotent(term);
  }

  /** More categories accept more terms, and no category accepts none. */
  lemma CategoriesMonotone(term: String, lookup: map<String, MeshEntry>, prefixes: seq<String>, more: seq<String>)
    requires forall p :: p in prefixes ==> p in more
    ensures IsTermInOneOfCategories(term, lookup, prefixes) ==> IsTermInOneOfCategories(term, lookup, more)
    ensures !IsTermInOneOfCategories(term, lookup, [])
  {
    if IsTermInOneOfCategories(term, lookup, prefixes) {
      var e := MapGet(lookup, Normalize(term)).value;
      var tn, k :| tn in e.treeNumbers && 0 <= k < |prefixes| && StartsWith(tn, prefixes[k]);
      assert prefixes[k] in more;
      var k' :| 0 <= k' < |more| && more[k'] == prefixes[k];
      assert StartsWith(tn, more[k']);
    }
  }

  /**
   * On the table built from the records summarised by `cs`, a term is in a
   * category exactly when some record that takes part lists it and has a
   * tree number with one of the prefixes.
   */
  lemma CategoriesOfBuiltLookup(cs: seq<Contribution>, lookup: map<String, MeshEntry>,
                                term: String, prefixes: seq<String>)
    requires forall t :: MapGet(lookup, t) == ExpectedEntry(cs, t)
    ensures IsTermInOneOfCategories(term, lookup, prefixes) <==>
      term != "" && exists i, tn, k ::
        0 <= i < |cs| && Adds(cs[i], Normalize(term))
        && tn in cs[i].treeNumbers && 0 <= k < |prefixes| && StartsWith(tn, prefixes[k])
  {
    if term != "" {
      var t := Normalize(term);
      FirstIdIsFirstRecord(cs, t);
      if IsTermInOneOfCategories(term, lookup, prefixes) {
        var e := MapGet(lookup, t).value;
        var tn, k :| tn in e.treeNumbers && 0 <= k < |prefixes| && StartsWith(tn, prefixes[k]);
        TreeNumbersOfUnion(cs, t, tn);
      }
      if exists i, tn, k ::
          0 <= i < |cs| && Adds(cs[i], t)
          && tn in cs[i].treeNumbers && 0 <= k < |prefixes| && StartsWith(tn, prefixes[k]) {
        var i, tn, k :|
          0 <= i < |cs| && Adds(cs[i], t)
          && tn in cs[i].treeNumbers && 0 <= k < |prefixes| && StartsWith(tn, prefixes[k]);
        TreeNumbersOfUnion(cs, t, tn);
      }
    }
  }
}
