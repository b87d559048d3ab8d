/**
 * A GEO series as the analysis sees it (src/model/geo_dataset.py): the
 * fields read from the series metadata, the text handed to the clustering
 * (with the SuperSeries boiler-plate left out) and equality.
 */
module GeoDatasetModel {
  import opened Wrappers
  import opened Strings
  import opened PyDict
  import opened GeoMetadata
  import opened Seqs

  datatype Dataset = Dataset(
    id: String,
    title: String,
    experimentType: String,
    summary: String,
    organisms: seq<String>,
    overallDesign: String,
    pubmedIds: seq<String>)

  /** The summary every SuperSeries carries instead of a description. */
  const SuperSeriesSummary: String := "This SuperSeries is composed of the SubSeries listed below."

  /** `GEODataset(metadata)`: the fields in the constructor's order, so the first failing read raises. */
  function FromMetadata(m: Metadata): Result<Dataset, MetaError> {
    var id := GetFirst(m, "geo_accession");
    if id.Failure? then Failure(id.error)
    else
      var title := GetFirst(m, "title");
      if title.Failure? then Failure(title.error)
      else
        var experimentType := IndexFirst(m, "type");
        if experimentType.Failure? then Failure(experimentType.error)
        else
          var summary := GetFirstOrEmpty(m, "summary");
          if summary.Failure? then Failure(summary.error)
          else
            var organisms := Get(m, "organisms");
            if organisms.None? then Failure(KeyError)
            else
              var design := GetFirstOrEmpty(m, "overall_design");
              if design.Failure? then Failure(design.error)
              else Success(Dataset(id.value, title.value, experimentType.value, summary.value,
                organisms.value, design.value, GetOrDefault(m, "pubmed_id", [])))
  }

  /**
   * The constructor succeeds exactly when the accession, title and type are
   * present with a first entry, the organisms are present, and the optional
   * summary and design are absent or non-empty; absent optional fields
   * default to "" and to no PubMed ids.
   */
  lemma FromMetadataFields(m: Metadata)
    ensures FromMetadata(m).Success? <==>
      GetFirst(m, "geo_accession").Success? && GetFirst(m, "title").Success?
      && IndexFirst(m, "type").Success? && GetFirstOrEmpty(m, "summary").Success?
      && Get(m, "organisms").Some? && GetFirstOrEmpty(m, "overall_design").Success?
    ensures FromMetadata(m).Success? ==>
      var d := FromMetadata(m).value;
      d.id == Get(m, "geo_accession").value[0] && d.title == Get(m, "title").value[0]
      && d.experimentType == Get(m, "type").value[0]
      && d.organisms == Get(m, "organisms").value
      && (Get(m, "summary").None? ==> d.summary == "")
      && (Get(m, "overall_design").None? ==> d.overallDesign == "")
      && (Get(m, "pubmed_id").None? ==> d.pubmedIds == [])
      && (Get(m, "pubmed_id").Some? ==> d.pubmedIds == Get(m, "pubmed_id").value)
  {
  }

  /** `metadata["type"]` on a series without a type is a KeyError rather than a TypeError. */
  lemma MissingTypeIsKeyError(m: Metadata)
    requires GetFirst(m, "geo_accession").Success? && GetFirst(m, "title").Success?
    requires Get(m, "type").None?
    ensures FromMetadata(m) == Failure(KeyError)
  {
  }

  predicate IsNotSuperseries(d: Dataset) {
    d.summary != SuperSeriesSummary
  }

  /** `__str__`: the text the clustering sees. */
  function Str(d: Dataset): String {
    if IsNotSuperseries(d) then
      d.title + "\n" + d.experimentType + "\n" + d.summary + "\n" + Join(d.organisms, ",") + "\n" + d.overallDesign
    else
      d.title + "\n" + d.experimentType + "\n" + Join(d.organisms, ",")
  }

  /** No field of the text contains a line break. */
  predicate SingleLineFields(d: Dataset) {
    '\n' !in d.title && '\n' !in d.experimentType && '\n' !in d.summary
    && '\n' !in d.overallDesign && forall o :: o in d.organisms ==> '\n' !in o
  }

  /** The five (or three) fields, joined by line breaks. */
  lemma {:induction false} StrAsJoin(d: Dataset)
    ensures IsNotSuperseries(d) ==> Str(d) == Join([d.title, d.experimentType, d.summary,
      Join(d.organisms, ","), d.overallDesign], "\n")
    ensures !IsNotSuperseries(d) ==> Str(d) == Join([d.title, d.experimentType,
      Join(d.organisms, ",")], "\n")
  {
    var o := Join(d.organisms, ",");
    JoinFive(d.title, d.experimentType, d.summary, o, d.overallDesign, "\n");
    JoinThree(d.title, d.experimentType, o, "\n");
  }

  /**
   * The text of an ordinary series splits back, line by line, into title,
   * type, summary, the comma-joined organisms and the overall design.
   */
  lemma {:induction false} StrLines(d: Dataset)
    requires SingleLineFields(d) && IsNotSuperseries(d)
    ensures Split(Str(d), "\n") == [d.title, d.experimentType, d.summary,
      Join(d.organisms, ","), d.overallDesign]
  {
    var o := Join(d.organisms, ",");
    JoinLacksChar(d.organisms, ",", '\n');
    StrAsJoin(d);
    SplitJoinChar([d.title, d.experimentType, d.summary, o, d.overallDesign], '\n');
  }

  /** A SuperSeries' text has three lines: its summary and overall design are left out. */
  lemma {:induction false} SuperSeriesLines(d: Dataset)
    requires SingleLineFields(d) && d.summary == SuperSeriesSummary
    ensures Split(Str(d), "\n") == [d.title, d.experimentType, Join(d.organisms, ",")]
  {
    var o := Join(d.organisms, ",");
    JoinLacksChar(d.organisms, ",", '\n');
    StrAsJoin(d);
    SplitJoinChar([d.title, d.experimentType, o], '\n');
  }

  /** Organism names without commas are recovered from their line. */
  lemma OrganismsLine(d: Dataset)
    requires |d.organisms| >= 1 && forall o :: o in d.organisms ==> ',' !in o
    ensures Split(Join(d.organisms, ","), ",") == d.organisms
  {
    SplitJoinChar(d.organisms, ',');
  }

  /** `__eq__`: organisms and PubMed ids as sets, the other text fields exactly; the id is ignored. */
  predicate Equal(a: Dataset, b: Dataset) {
    a.title == b.title
    && a.experimentType == b.experimentType
    && a.summary == b.summary
    && SameElements(a.organisms, b.organisms)
    && a.overallDesign == b.overallDesign
    && SameElements(a.pubmedIds, b.pubmedIds)
  }

  /** Equality is an equivalence relation. */
  lemma EqualIsEquivalence(a: Dataset, b: Dataset, c: Dataset)
    ensures Equal(a, a)
    ensures Equal(a, b) ==> Equal(b, a)
    ensures Equal(a, b) && Equal(b, c) ==> Equal(a, c)
  {
  }

  /** Reordering the organisms and PubMed ids, or changing the id, keeps a dataset equal. */
  lemma EqualUnderPermutation(a: Dataset, id: String, organisms: seq<String>, pubmedIds: seq<String>)
    requires multiset(organisms) == multiset(a.organisms)
    requires multiset(pubmedIds) == multiset(a.pubmedIds)
    ensures Equal(a, a.(id := id, organisms := organisms, pubmedIds := pubmedIds))
  {
    forall o ensures o in organisms <==> o in a.organisms {
      assert o in organisms <==> o in multiset(organisms);
      assert o in a.organisms <==> o in multiset(a.organisms);
    }
    forall p ensures p in pubmedIds <==> p in a.pubmedIds {
      assert p in pubmedIds <==> p in multiset(pubmedIds);
      assert p in a.pubmedIds <==> p in multiset(a.pubmedIds);
    }
  }

  /** Repeating an organism or a PubMed id keeps a dataset equal. */
  lemma EqualUnderDuplication(a: Dataset, i: nat, j: nat)
    requires i < |a.organisms| && j < |a.pubmedIds|
    ensures Equal(a, a.(organisms := a.organisms + [a.organisms[i]],
      pubmedIds := a.pubmedIds + [a.pubmedIds[j]]))
  {
  }

  /** Equal datasets can still give the clustering different texts: the organisms keep their order. */
  lemma EqualButDifferentText(a: Dataset, b: Dataset)
    requires a.summary == "" && a.organisms == ["x", "y"]
    requires b == a.(organisms := ["y", "x"])
    ensures Equal(a, b) && Str(a) != Str(b)
  {
    assert Join(a.organisms, ",") == "x,y";
    assert Join(b.organisms, ",") == "y,x";
    var pre := a.title + "\n" + a.experimentType + "\n" + a.summary + "\n";
    assert Str(a)[|pre|] == 'x';
    assert Str(b)[|pre|] == 'y';
  }
}
