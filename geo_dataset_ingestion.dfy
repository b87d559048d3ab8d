/**
 * The GEO series record of the ingestion step (src/ingestion/geo_dataset.py):
 * like the analysis model, but without an id, with the organisms looked up
 * from the sample taxonomy ids, and with all five fields always in its text.
 */
module IngestionGeoDataset {
  import opened Wrappers
  import opened Strings
  import opened PyDict
  import opened GeoMetadata
  import opened Seqs

  datatype Dataset = Dataset(
    title: String,
    experimentType: String,
    summary: String,
    organisms: seq<String>,
    overallDesign: String,
    pubmedIds: seq<String>)

  /**
   * `GEODataset(metadata)`; `scientificNames` stands for the taxonomy
   * service that turns taxonomy ids into organism names.
   */
  function FromMetadata(m: Metadata, scientificNames: seq<String> -> seq<String>): Result<Dataset, MetaError> {
    var title := GetFirst(m, "title");
    if title.Failure? then Failure(title.error)
    else
      var experimentType := IndexFirst(m, "type");
      if experimentType.Failure? then Failure(experimentType.error)
      else
        var summary := GetFirstOrEmpty(m, "summary");
        if summary.Failure? then Failure(summary.error)
        else
          var organisms := scientificNames(GetOrDefault(m, "sample_taxid", []));
          var design := GetFirstOrEmpty(m, "overall_design");
          if design.Failure? then Failure(design.error)
          else Success(Dataset(title.value, experimentType.value, summary.value,
            organisms, design.value, GetOrDefault(m, "pubmed_id", [])))
  }

  /**
   * The constructor succeeds exactly when title and type are present with a
   * first entry and the optional summary and design are absent or non-empty;
   * the organisms are the names of the listed taxonomy ids (of none when
   * absent), and absent optional fields default to "" and to no PubMed ids.
   */
  lemma FromMetadataFields(m: Metadata, scientificNames: seq<String> -> seq<String>)
    ensures FromMetadata(m, scientificNames).Success? <==>
      GetFirst(m, "title").Success? && IndexFirst(m, "type").Success?
      && GetFirstOrEmpty(m, "summary").Success? && GetFirstOrEmpty(m, "overall_design").Success?
    ensures FromMetadata(m, scientificNames).Success? ==>
      var d := FromMetadata(m, scientificNames).value;
      d.title == Get(m, "title").value[0] && d.experimentType == Get(m, "type").value[0]
      && (Get(m, "sample_taxid").None? ==> d.organisms == scientificNames([]))
      && (Get(m, "sample_taxid").Some? ==> d.organisms == scientificNames(Get(m, "sample_taxid").value))
      && (Get(m, "summary").None? ==> d.summary == "")
      && (Get(m, "overall_design").None? ==> d.overallDesign == "")
      && (Get(m, "pubmed_id").None? ==> d.pubmedIds == [])
  {
  }

  /** `__str__`: every field on its own line, organisms comma-joined in list order. */
  function Str(d: Dataset): String {
    d.title + "\n" + d.experimentType + "\n" + d.summary + "\n" + Join(d.organisms, ",") + "\n" + d.overallDesign
  }

  predicate SingleLineFields(d: Dataset) {
    '\n' !in d.title && '\n' !in d.experimentType && '\n' !in d.summary
    && '\n' !in d.overallDesign && forall o :: o in d.organisms ==> '\n' !in o
  }

  lemma {:induction false} StrAsJoin(d: Dataset)
    ensures Str(d) == Join([d.title, d.experimentType, d.summary, Join(d.organisms, ","), d.overallDesign], "\n")
  {
    var o := Join(d.organisms, ",");
    JoinFive(d.title, d.experimentType, d.summary, o, d.overallDesign, "\n");
  }

  /**
   * The text always has all five lines, whatever the summary says (there is
   * no SuperSeries case here).
   */
  lemma {:induction false} StrLines(d: Dataset)
    requires SingleLineFields(d)
    ensures Split(Str(d), "\n") == [d.title, d.experimentType, d.summary,
      Join(d.organisms, ","), d.overallDesign]
  {
    var o := Join(d.organisms, ",");
    JoinLacksChar(d.organisms, ",", '\n');
    StrAsJoin(d);
    SplitJoinChar([d.title, d.experimentType, d.summary, o, d.overallDesign], '\n');
  }

  /** `__eq__`: organisms and PubMed ids as sets, the other fields exactly. */
  predicate Equal(a: Dataset, b: Dataset) {
    a.title == b.title
    && a.experimentType == b.experimentType
    && a.summary == b.summary
    && SameElements(a.organisms, b.organisms)
    && a.overallDesign == b.overallDesign
    && SameElements(a.pubmedIds, b.pubmedIds)
  }

  /** Equality is an equivalence relation. */
  lemma EqualIsEquivalence(a: Dataset, b: Dataset, c: Dataset)
    ensures Equal(a, a)
    ensures Equal(a, b) ==> Equal(b, a)
    ensures Equal(a, b) && Equal(b, c) ==> Equal(a, c)
  {
  }
}
