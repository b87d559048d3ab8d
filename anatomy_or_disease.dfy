/**
 * The set-valued MeSH lookup of the tissue parser
 * (src/tissue_parsing/is_mesh_term_in_anatomy_or_disease.py): every
 * normalised synonym maps to the union of the tree numbers of all records
 * that list it, and a term is anatomy or disease when one of its tree
 * numbers starts with "A" or "C".
 */
module AnatomyOrDisease {
  import opened Wrappers
  import opened Strings
  import opened PyDict
  import Seqs
  import opened MeshVocabulary

  /** A record with tree numbers lists `t` among its synonyms (records without tree numbers are skipped). */
  predicate Lists(c: Contribution, t: String) {
    c.treeNumbers != {} && t in c.terms
  }

  /** The entry of `t` after the records `cs`: each record that lists `t` adds its tree numbers. */
  function ExpectedSet(cs: seq<Contribution>, t: String): Option<set<String>>
    decreases |cs|
  {
    if |cs| == 0 then None
    else
      var found := ExpectedSet(cs[..|cs| - 1], t);
      var c := cs[|cs| - 1];
      if Lists(c, t) then Some((if found.None? then {} else found.value) + c.treeNumbers)
      else found
  }

  /**
   * A term has an entry exactly when some record with tree numbers lists it,
   * and the entry is the union of the tree numbers of every record that
   * lists it.
   */
  lemma {:induction false} ExpectedSetIsUnion(cs: seq<Contribution>, t: String, tn: String)
    ensures ExpectedSet(cs, t).Some? <==> exists i :: 0 <= i < |cs| && Lists(cs[i], t)
    ensures tn in (if ExpectedSet(cs, t).None? then {} else ExpectedSet(cs, t).value) <==>
      exists i :: 0 <= i < |cs| && t in cs[i].terms && tn in cs[i].treeNumbers
    decreases |cs|
  {
    if |cs| > 0 {
      var pre := cs[..|cs| - 1];
      ExpectedSetIsUnion(pre, t, tn);
      assert forall i :: 0 <= i < |pre| ==> pre[i] == cs[i];
    }
  }

  /** Record `i` leaves the terms it does not list alone, and grows the set of those it lists. */
  lemma ExpectedSetStep(cs: seq<Contribution>, i: nat, t: String, found: Option<set<String>>)
    requires i < |cs| && found == ExpectedSet(cs[..i], t)
    ensures !Lists(cs[i], t) ==> ExpectedSet(cs[..i + 1], t) == found
    ensures Lists(cs[i], t) ==>
      ExpectedSet(cs[..i + 1], t) == Some((if found.None? then {} else found.value) + cs[i].treeNumbers)
  {
    assert cs[..i + 1][..i] == cs[..i];
    assert cs[..i + 1][i] == cs[i];
  }

  /** The lookup after the terms `done` of record `i` have been stored. */
  ghost predicate Partial(lookup: map<String, set<String>>, cs: seq<Contribution>, i: nat, done: set<String>)
    requires i < |cs|
  {
    forall t :: MapGet(lookup, t) == if t in done then ExpectedSet(cs[..i + 1], t) else ExpectedSet(cs[..i], t)
  }

  /** Storing the grown set of one more term of record `i`. */
  lemma SetStep(lookup: map<String, set<String>>, cs: seq<Contribution>, i: nat, done: set<String>,
                term: String, tns: set<String>)
    requires i < |cs| && Lists(cs[i], term) && term !in done
    requires Partial(lookup, cs, i, done)
    requires tns == (if MapGet(lookup, term).None? then {} else MapGet(lookup, term).value) + cs[i].treeNumbers
    ensures Partial(lookup[term := tns], cs, i, done + {term})
  {
    ExpectedSetStep(cs, i, term, MapGet(lookup, term));
  }

  /** The inner loop: every synonym of record `i` gains the record's tree numbers. */
  method AddRecordTerms(lookup: map<String, set<String>>, terms: set<String>, treeNumbers: set<String>,
                        ghost cs: seq<Contribution>, ghost i: nat)
    returns (r: map<String, set<String>>)
    requires i < |cs| && cs[i].terms == terms && cs[i].treeNumbers == treeNumbers && treeNumbers != {}
    requires forall t :: MapGet(lookup, t) == ExpectedSet(cs[..i], t)
    ensures forall t :: MapGet(r, t) == ExpectedSet(cs[..i + 1], t)
  {
    r := lookup;
    var remaining := terms;
    var done: set<String> := {};
    while remaining != {}
      invariant done + remaining == terms && done !! remaining
      invariant Partial(r, cs, i, done)
      decreases |remaining|
    {
      var term :| term in remaining;
      Seqs.MoveOne(terms, done, remaining, term);
      var found := MapGet(r, term);
      var tns := (if found.None? then {} else found.value) + treeNumbers;
      SetStep(r, cs, i, done, term, tns);
      r := r[term := tns];
      remaining := remaining - {term};
      done := done + {term};
    }
    Seqs.MovedAll(terms, done, remaining);
    forall t ensures MapGet(r, t) == ExpectedSet(cs[..i + 1], t) {
      ExpectedSetStep(cs, i, t, ExpectedSet(cs[..i], t));
    }
  }

  /** `build_mesh_lookup` of the tissue parser over the records of the file. */
  method BuildMeshLookup(records: seq<MeshRecord>) returns (lookup: map<String, set<String>>)
    ensures forall t :: MapGet(lookup, t) == ExpectedSet(Summaries(records), t)
  {
    ghost var cs := Summaries(records);
    lookup := map[];
    var i := 0;
    while i < |records|
      invariant 0 <= i <= |records|
      invariant forall t :: MapGet(lookup, t) == ExpectedSet(cs[..i], t)
    {
      var record := records[i];
      var treeNumbers := RecordTreeNumbers(record);
      if treeNumbers == {} {
        forall t ensures ExpectedSet(cs[..i + 1], t) == ExpectedSet(cs[..i], t) {
          ExpectedSetStep(cs, i, t, ExpectedSet(cs[..i], t));
        }
        i := i + 1;
        continue;
      }
      var terms := Synonyms(record);
      lookup := AddRecordTerms(lookup, terms, treeNumbers, cs, i);
      i := i + 1;
    }
    assert cs[..i] == cs;
  }

  /** Tree numbers of the anatomy (A) and disease (C) branches. */
  predicate AnatomyOrDiseaseNumber(tn: String) {
    StartsWith(tn, "A") || StartsWith(tn, "C")
  }

  /** `is_mesh_term_in_anatomy_or_disease(term, mesh_lookup)`. */
  predicate IsInAnatomyOrDisease(term: String, lookup: map<String, set<String>>) {
    if term == "" then false
    else match MapGet(lookup, Normalize(term))
      case None => false
      case Some(tns) => tns != {} && exists tn :: tn in tns && AnatomyOrDiseaseNumber(tn)
  }

  /** A term whose entry has no tree numbers is neither anatomy nor disease. */
  lemma EmptyEntryIsNeither(term: String, lookup: map<String, set<String>>)
    requires MapGet(lookup, Normalize(term)) == Some({})
    ensures !IsInAnatomyOrDisease(term, lookup)
  {
  }

  /**
   * On the table built from the records summarised by `cs`, a term is
   * anatomy or disease exactly when some record lists it with a tree number
   * starting with "A" or "C".
   */
  lemma AnatomyOrDiseaseOfBuiltLookup(cs: seq<Contribution>, lookup: map<String, set<String>>, term: String)
    requires forall t :: MapGet(lookup, t) == ExpectedSet(cs, t)
    ensures IsInAnatomyOrDisease(term, lookup) <==>
      term != "" && exists i, tn ::
        0 <= i < |cs| && Normalize(term) in cs[i].terms
        && tn in cs[i].treeNumbers && AnatomyOrDiseaseNumber(tn)
  {
    if term != "" {
      var t := Normalize(term);
      if IsInAnatomyOrDisease(term, lookup) {
        var tns := MapGet(lookup, t).value;
        var tn :| tn in tns && AnatomyOrDiseaseNumber(tn);
        ExpectedSetIsUnion(cs, t, tn);
      }
      if exists i, tn ::
          0 <= i < |cs| && t in cs[i].terms
          && tn in cs[i].treeNumbers && AnatomyOrDiseaseNumber(tn) {
        var i, tn :|
          0 <= i < |cs| && t in cs[i].terms
          && tn in cs[i].treeNumbers && AnatomyOrDiseaseNumber(tn);
        ExpectedSetIsUnion(cs, t, tn);
      }
    }
  }
}
