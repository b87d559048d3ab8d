/**
 * Standardising the metadata of one GEO sample
 * (src/parsing/standardize_sample.py): the source name runs through the
 * recognition pipeline; age, tissue, cell type and disease are each read
 * from the first annotation of their class and from the characteristics,
 * and both readings are standardised.
 */
module StandardizeSample {
  import opened Wrappers
  import opened Strings
  import opened PyDict
  import opened GeoMetadata
  import opened GeoSamples
  import opened AgeExtraction
  import opened AgeOfSample
  import opened NerNenPipeline

  /** A cell of the parsed table: Python's None, a string or an age. */
  datatype Value = Null | Text(s: String) | AgeValue(age: Age)

  /** A field read from the source name and from the characteristics, each with its standard value. */
  datatype ParsedField = ParsedField(
    fieldName: String,
    valueFromSourceName: Value,
    valueInCharacteristics: Value,
    standardValueFromSourceName: Value,
    standardValueFromCharacteristics: Value)

  datatype ParsedSample = ParsedSample(id: String, sourceName: String, fields: seq<ParsedField>)

  /** The four column suffixes of a field, in the order `to_dict` lists them. */
  const Suffixes: seq<String> := [
    "_value_from_source_name", "_value_in_characteristics",
    "_standard_value_from_source_name", "_standard_value_from_characteristics"]

  /** The four values of a field, in the order of `Suffixes`. */
  function FieldValues(f: ParsedField): seq<Value> {
    [f.valueFromSourceName, f.valueInCharacteristics, f.standardValueFromSourceName, f.standardValueFromCharacteristics]
  }

  /** `ParsedField.to_dict()`. */
  function FieldToDict(f: ParsedField): (d: Dict<String, Value>)
    ensures |d| == 4
  {
    seq(4, k requires 0 <= k < 4 => (f.fieldName + Suffixes[k], FieldValues(f)[k]))
  }

  /** Keys with different suffixes of the same prefix differ. */
  lemma SuffixesDistinct(name: String, k: nat, j: nat)
    requires k < j < 4
    ensures name + Suffixes[k] != name + Suffixes[j]
  {
    assert |Suffixes[k]| != |Suffixes[j]|;
  }

  /**
   * The dictionary of a field has exactly four distinct keys, each the
   * field name followed by one of the suffixes, and each holding its value.
   */
  lemma FieldDictShape(f: ParsedField)
    ensures DistinctKeys(FieldToDict(f))
    ensures forall k :: 0 <= k < 4 ==> StartsWith(FieldToDict(f)[k].0, f.fieldName)
    ensures forall k :: 0 <= k < 4 ==> Get(FieldToDict(f), f.fieldName + Suffixes[k]) == Some(FieldValues(f)[k])
  {
    var d := FieldToDict(f);
    forall k, j | 0 <= k < j < 4 ensures d[k].0 != d[j].0 {
      SuffixesDistinct(f.fieldName, k, j);
    }
    forall k | 0 <= k < 4 ensures StartsWith(d[k].0, f.fieldName) {
      assert d[k].0[..|f.fieldName|] == f.fieldName;
    }
    forall k | 0 <= k < 4 ensures Get(d, f.fieldName + Suffixes[k]) == Some(FieldValues(f)[k]) {
      DistinctGet(d, k);
    }
  }

  /** In a dictionary with distinct keys the entry at position `k` is what its key gets. */
  lemma {:induction false} DistinctGet<V>(d: Dict<String, V>, k: nat)
    requires k < |d| && DistinctKeys(d)
    ensures Get(d, d[k].0) == Some(d[k].1)
    decreases k
  {
    if k > 0 {
      assert DistinctKeys(d[1..]) by {
        forall i, j | 0 <= i < j < |d[1..]| ensures d[1..][i].0 != d[1..][j].0 {
          assert d[1..][i] == d[i + 1] && d[1..][j] == d[j + 1];
        }
      }
      DistinctGet(d[1..], k - 1);
      assert d[0].0 != d[k].0;
    }
  }

  /** The pairs that `update` adds, field by field. */
  function FieldPairs(fields: seq<ParsedField>): seq<(String, Value)>
    decreases |fields|
  {
    if |fields| == 0 then [] else FieldPairs(fields[..|fields| - 1]) + FieldToDict(fields[|fields| - 1])
  }

  /** The dictionary `to_dict` starts from: the id and the source name. */
  function Header(s: ParsedSample): Dict<String, Value> {
    [("id", Text(s.id)), ("source_name", Text(s.sourceName))]
  }

  /** `ParsedSample.to_dict()`: the header, then every field's entries in order. */
  function SampleDict(s: ParsedSample): Dict<String, Value> {
    SetAll(Header(s), FieldPairs(s.fields))
  }

  /** The loop of `ParsedSample.to_dict()`, one `update` per field. */
  method SampleToDict(s: ParsedSample) returns (d: Dict<String, Value>)
    ensures d == SampleDict(s)
  {
    d := [];
    d := Set(d, "id", Text(s.id));
    d := Set(d, "source_name", Text(s.sourceName));
    assert d == [("id", Text(s.id))] + Set([], "source_name", Text(s.sourceName));
    var i := 0;
    while i < |s.fields|
      invariant 0 <= i <= |s.fields|
      invariant d == SetAll(Header(s), FieldPairs(s.fields[..i]))
    {
      SetAllAppend(Header(s), FieldPairs(s.fields[..i]), FieldToDict(s.fields[i]));
      assert s.fields[..i + 1][..i] == s.fields[..i];
      d := SetAll(d, FieldToDict(s.fields[i]));
      i := i + 1;
    }
    assert s.fields[..i] == s.fields;
  }

  /** A column ending in a field suffix is never "id" or "source_name". */
  lemma SuffixedKeyNotHeader(name: String, k: nat)
    requires k < 4
    ensures name + Suffixes[k] != "id" && name + Suffixes[k] != "source_name"
  {
  }

  /** The entries of the fields are exactly the field-name-and-suffix columns. */
  lemma {:induction false} FieldPairsKeys(fields: seq<ParsedField>, key: String)
    ensures LastValue(FieldPairs(fields), key).Some? <==>
      exists i, k :: 0 <= i < |fields| && 0 <= k < 4 && key == fields[i].fieldName + Suffixes[k]
    decreases |fields|
  {
    if |fields| > 0 {
      var n := |fields| - 1;
      var pre := FieldPairs(fields[..n]);
      var last := FieldToDict(fields[n]);
      FieldPairsKeys(fields[..n], key);
      LastValueAppend(pre, last, key);
      if LastValue(FieldPairs(fields), key).Some? {
        if LastValue(last, key).Some? {
          var k :| 0 <= k < 4 && last[k].0 == key;
          assert key == fields[n].fieldName + Suffixes[k];
        } else {
          var i, k :| 0 <= i < n && 0 <= k < 4 && key == fields[..n][i].fieldName + Suffixes[k];
          assert fields[..n][i] == fields[i];
        }
      }
      if exists i, k :: 0 <= i < |fields| && 0 <= k < 4 && key == fields[i].fieldName + Suffixes[k] {
        var i, k :| 0 <= i < |fields| && 0 <= k < 4 && key == fields[i].fieldName + Suffixes[k];
        if i == n {
          assert last[k].0 == key;
        } else {
          assert fields[..n][i] == fields[i];
        }
      }
    }
  }

  /** The last value for a key in two lists joined is the second list's, if it has one. */
  lemma {:induction false} LastValueAppend<V>(a: seq<(String, V)>, b: seq<(String, V)>, key: String)
    ensures LastValue(a + b, key) == if LastValue(b, key).Some? then LastValue(b, key) else LastValue(a, key)
    decreases |b|
  {
    if |b| > 0 {
      var n := |b| - 1;
      assert (a + b)[..|a + b| - 1] == a + b[..n];
      LastValueAppend(a, b[..n], key);
    } else {
      assert a + b == a;
    }
  }

  /** No field column is named "id" or "source_name". */
  lemma FieldPairsMissHeader(fields: seq<ParsedField>)
    ensures LastValue(FieldPairs(fields), "id").None? && LastValue(FieldPairs(fields), "source_name").None?
  {
    FieldPairsKeys(fields, "id");
    FieldPairsKeys(fields, "source_name");
    forall i, k | 0 <= i < |fields| && 0 <= k < 4
      ensures fields[i].fieldName + Suffixes[k] != "id" && fields[i].fieldName + Suffixes[k] != "source_name"
    {
      SuffixedKeyNotHeader(fields[i].fieldName, k);
    }
  }

  /** The sample's dictionary has distinct keys and keeps its id and source name. */
  lemma SampleDictHeader(s: ParsedSample)
    ensures DistinctKeys(SampleDict(s))
    ensures Get(SampleDict(s), "id") == Some(Text(s.id))
    ensures Get(SampleDict(s), "source_name") == Some(Text(s.sourceName))
  {
    var ps := FieldPairs(s.fields);
    FieldPairsMissHeader(s.fields);
    SetAllLastWins(Header(s), ps, "id");
    SetAllLastWins(Header(s), ps, "source_name");
  }

  /** The sample's dictionary has a column exactly for "id", "source_name" and each field name followed by a suffix. */
  lemma SampleDictKeys(s: ParsedSample, key: String)
    ensures key in Keys(SampleDict(s)) <==>
      key == "id" || key == "source_name"
      || exists i, k :: 0 <= i < |s.fields| && 0 <= k < 4 && key == s.fields[i].fieldName + Suffixes[k]
  {
    SetAllKeys(Header(s), FieldPairs(s.fields), key);
    FieldPairsKeys(s.fields, key);
  }

  /** The first annotation whose class, lower-cased, is `nerType` lower-cased. */
  function FirstOfClass(anns: seq<PipelineResult>, nerType: String): (r: Option<PipelineResult>)
    decreases |anns|
  {
    if |anns| == 0 then None
    else if Lower(anns[0].entityClass) == Lower(nerType) then Some(anns[0])
    else FirstOfClass(anns[1..], nerType)
  }

  /** There is a first annotation of the class exactly when some annotation has it, and none before it does. */
  lemma {:induction false} FirstOfClassSpec(anns: seq<PipelineResult>, nerType: String)
    ensures FirstOfClass(anns, nerType).None? <==>
      forall i :: 0 <= i < |anns| ==> Lower(anns[i].entityClass) != Lower(nerType)
    ensures FirstOfClass(anns, nerType).Some? ==> exists i ::
        0 <= i < |anns| && anns[i] == FirstOfClass(anns, nerType).value
        && Lower(anns[i].entityClass) == Lower(nerType)
        && forall j :: 0 <= j < i ==> Lower(anns[j].entityClass) != Lower(nerType)
    decreases |anns|
  {
    if |anns| > 0 && Lower(anns[0].entityClass) != Lower(nerType) {
      FirstOfClassSpec(anns[1..], nerType);
      assert forall i :: 0 <= i < |anns| - 1 ==> anns[1..][i] == anns[i + 1];
      if FirstOfClass(anns, nerType).Some? {
        var i :| 0 <= i < |anns[1..]| && anns[1..][i] == FirstOfClass(anns, nerType).value
          && Lower(anns[1..][i].entityClass) == Lower(nerType)
          && forall j :: 0 <= j < i ==> Lower(anns[1..][j].entityClass) != Lower(nerType);
        assert forall j :: 0 <= j < i + 1 ==> Lower(anns[j].entityClass) != Lower(nerType) by {
          forall j | 0 <= j < i + 1 ensures Lower(anns[j].entityClass) != Lower(nerType) {
            if j > 0 {
              assert anns[j] == anns[1..][j - 1];
            }
          }
        }
      } else {
        forall i | 0 <= i < |anns| ensures Lower(anns[i].entityClass) != Lower(nerType) {
          if i > 0 {
            assert anns[i] == anns[1..][i - 1];
          }
        }
      }
    }
  }

  function OfString(o: Option<String>): Value {
    if o.Some? then Text(o.value) else Null
  }

  function OfAge(o: Option<Age>): Value {
    if o.Some? then AgeValue(o.value) else Null
  }

  /** Why a sample cannot be parsed. */
  datatype ParseError =
    | IndexError      // the metadata lists no source name at all
    | AgeTypeError    // `get_age` finds an age key naming a unit whose value holds no age (`float(None)`)
    | AttributeError  // the normaliser maps a characteristic to nothing

  /** `_get_age_field(sample, source_name_annotations)`. */
  function AgeField(sample: Sample, anns: seq<PipelineResult>): Result<ParsedField, ParseError> {
    var ann := FirstOfClass(anns, "age");
    var fromSourceName := if ann.Some? then Some(ann.value.mention) else None;
    var standardFromSourceName :=
      if fromSourceName.Some? && fromSourceName.value != "" then OfAge(ExtractAge(fromSourceName.value, true)) else Null;
    match GetAge(sample.characteristics)
    case Failure(_) => Failure(AgeTypeError)
    case Success(age) =>
      Success(ParsedField("age", OfString(fromSourceName), OfString(Get(sample.characteristics, "age")),
        standardFromSourceName, OfAge(age)))
  }

  /** `_get_parsed_field(field_name, ner_type, sample, source_name_annotations, pipeline)`. */
  function ParsedFieldOf(fieldName: String, nerType: String, sample: Sample, anns: seq<PipelineResult>,
                         normalizer: String -> Option<NormalizationResult>): Result<ParsedField, ParseError>
  {
    var ann := FirstOfClass(anns, nerType);
    var inCharacteristics := Get(sample.characteristics, fieldName);
    var fromSourceName := if ann.Some? then Text(ann.value.mention) else Null;
    var standardFromSourceName := if ann.Some? then OfString(ann.value.standardName) else Null;
    if inCharacteristics.None? then
      Success(ParsedField(fieldName, fromSourceName, Null, standardFromSourceName, Null))
    else match normalizer(inCharacteristics.value)
      case None => Failure(AttributeError)
      case Some(n) =>
        Success(ParsedField(fieldName, fromSourceName, Text(inCharacteristics.value),
          standardFromSourceName, Text(n.standardName)))
  }

  /**
   * The field is read from the first annotation of its class, whose mention
   * and standard name it keeps (none without such an annotation), and from
   * the characteristic of its own name, whose standard value is the
   * normaliser's name (none when the characteristic is missing); it fails
   * exactly when the normaliser maps a present characteristic to nothing.
   */
  lemma ParsedFieldSpec(fieldName: String, nerType: String, sample: Sample, anns: seq<PipelineResult>,
                        normalizer: String -> Option<NormalizationResult>)
    ensures var r := ParsedFieldOf(fieldName, nerType, sample, anns, normalizer);
      var c := Get(sample.characteristics, fieldName);
      (r.Failure? <==> c.Some? && normalizer(c.value).None?)
      && (r.Success? ==>
            r.value.fieldName == fieldName
            && r.value.valueInCharacteristics == OfString(c)
            && (c.None? ==> r.value.standardValueFromCharacteristics == Null)
            && (c.Some? ==> r.value.standardValueFromCharacteristics == Text(normalizer(c.value).value.standardName))
            && ((forall i :: 0 <= i < |anns| ==> Lower(anns[i].entityClass) != Lower(nerType)) ==>
                  r.value.valueFromSourceName == Null && r.value.standardValueFromSourceName == Null)
            && (FirstOfClass(anns, nerType).Some? ==>
                  r.value.valueFromSourceName == Text(FirstOfClass(anns, nerType).value.mention)
                  && r.value.standardValueFromSourceName == OfString(FirstOfClass(anns, nerType).value.standardName)))
  {
    FirstOfClassSpec(anns, nerType);
  }

  /** An age found in the source name is extracted only when its mention is not empty. */
  lemma AgeFieldSpec(sample: Sample, anns: seq<PipelineResult>)
    ensures var r := AgeField(sample, anns);
      var ann := FirstOfClass(anns, "age");
      (r.Failure? <==> GetAge(sample.characteristics).Failure?)
      && (r.Success? ==>
            r.value.fieldName == "age"
            && r.value.valueInCharacteristics == OfString(Get(sample.characteristics, "age"))
            && r.value.standardValueFromCharacteristics == OfAge(GetAge(sample.characteristics).value)
            && (ann.None? ==> r.value.valueFromSourceName == Null && r.value.standardValueFromSourceName == Null)
            && (ann.Some? && ann.value.mention == "" ==> r.value.standardValueFromSourceName == Null)
            && (ann.Some? && ann.value.mention != "" ==>
                  r.value.standardValueFromSourceName == OfAge(ExtractAge(ann.value.mention, true))))
  {
  }

  /** `sample.metadata.get("source_name_ch1", [""])[0]`. */
  function SourceName(m: Metadata): Result<String, ParseError> {
    var names := if Get(m, "source_name_ch1").Some? then Get(m, "source_name_ch1").value else [""];
    if |names| == 0 then Failure(ParseError.IndexError) else Success(names[0])
  }

  /** The fields of a sample, in the order age, tissue, cell type, disease. */
  function Fields(sample: Sample, anns: seq<PipelineResult>,
                  normalizer: String -> Option<NormalizationResult>): Result<seq<ParsedField>, ParseError>
  {
    var age := AgeField(sample, anns);
    if age.Failure? then Failure(age.error)
    else
      var tissue := ParsedFieldOf("tissue", "tissue", sample, anns, normalizer);
      if tissue.Failure? then Failure(tissue.error)
      else
        var cellType := ParsedFieldOf("cell type", "cell type", sample, anns, normalizer);
        if cellType.Failure? then Failure(cellType.error)
        else
          var disease := ParsedFieldOf("disease", "healthy or disease", sample, anns, normalizer);
          if disease.Failure? then Failure(disease.error)
          else Success([age.value, tissue.value, cellType.value, disease.value])
  }

  /** What `parse_sample(sample, pipeline)` returns or raises. */
  function ParsedSampleOf(sample: Sample, recognizer: String -> seq<NamedEntity>,
                       normalizer: String -> Option<NormalizationResult>): Result<ParsedSample, ParseError>
  {
    match SourceName(sample.metadata)
    case Failure(e) => Failure(e)
    case Success(sourceName) =>
      var anns := Results(recognizer(sourceName), normalizer);
      match Fields(sample, anns, normalizer)
      case Failure(e) => Failure(e)
      case Success(fields) => Success(ParsedSample(sample.accession, sourceName, fields))
  }

  /** With a source name, parsing is reading the fields from its annotations. */
  lemma ParsedSampleOfFields(sample: Sample, recognizer: String -> seq<NamedEntity>,
                             normalizer: String -> Option<NormalizationResult>)
    requires SourceName(sample.metadata).Success?
    ensures var sourceName := SourceName(sample.metadata).value;
      var fields := Fields(sample, Results(recognizer(sourceName), normalizer), normalizer);
      ParsedSampleOf(sample, recognizer, normalizer)
        == if fields.Failure? then Failure(fields.error) else Success(ParsedSample(sample.accession, sourceName, fields.value))
  {
  }

  /**
   * `parse_sample(sample, pipeline)`: the source name is annotated by the
   * pipeline and the four fields are appended in order.
   */
  method ParseSample(sample: Sample, recognizer: String -> seq<NamedEntity>,
                     normalizer: String -> Option<NormalizationResult>) returns (r: Result<ParsedSample, ParseError>)
    ensures r == ParsedSampleOf(sample, recognizer, normalizer)
  {
    var fields: seq<ParsedField> := [];
    var sourceName := SourceName(sample.metadata);
    if sourceName.Failure? {
      return Failure(sourceName.error);
    }
    var anns := Run(sourceName.value, recognizer, normalizer);
    ParsedSampleOfFields(sample, recognizer, normalizer);
    var age := AgeField(sample, anns);
    if age.Failure? {
      assert Fields(sample, anns, normalizer) == Failure(age.error);
      return Failure(age.error);
    }
    fields := fields + [age.value];
    var tissue := ParsedFieldOf("tissue", "tissue", sample, anns, normalizer);
    if tissue.Failure? {
      assert Fields(sample, anns, normalizer) == Failure(tissue.error);
      return Failure(tissue.error);
    }
    fields := fields + [tissue.value];
    var cellType := ParsedFieldOf("cell type", "cell type", sample, anns, normalizer);
    if cellType.Failure? {
      assert Fields(sample, anns, normalizer) == Failure(cellType.error);
      return Failure(cellType.error);
    }
    fields := fields + [cellType.value];
    var disease := ParsedFieldOf("disease", "healthy or disease", sample, anns, normalizer);
    if disease.Failure? {
      assert Fields(sample, anns, normalizer) == Failure(disease.error);
      return Failure(disease.error);
    }
    fields := fields + [disease.value];
    assert fields == [age.value, tissue.value, cellType.value, disease.value];
    assert Fields(sample, anns, normalizer) == Success(fields);
    return Success(ParsedSample(sample.accession, sourceName.value, fields));
  }

  /** The normaliser maps the characteristic `name`, which the sample has, to nothing. */
  predicate Unmapped(sample: Sample, name: String, normalizer: String -> Option<NormalizationResult>) {
    Get(sample.characteristics, name).Some? && normalizer(Get(sample.characteristics, name).value).None?
  }

  /** The fields fail exactly on a malformed age or an unmapped tissue, cell type or disease characteristic. */
  lemma FieldsFail(sample: Sample, anns: seq<PipelineResult>, normalizer: String -> Option<NormalizationResult>)
    ensures Fields(sample, anns, normalizer).Failure? <==>
      GetAge(sample.characteristics).Failure? || Unmapped(sample, "tissue", normalizer)
      || Unmapped(sample, "cell type", normalizer) || Unmapped(sample, "disease", normalizer)
  {
    AgeFieldSpec(sample, anns);
    ParsedFieldSpec("tissue", "tissue", sample, anns, normalizer);
    ParsedFieldSpec("cell type", "cell type", sample, anns, normalizer);
    ParsedFieldSpec("disease", "healthy or disease", sample, anns, normalizer);
  }

  /**
   * Parsing fails exactly on an empty list of source names (an index error),
   * a malformed age, or a characteristic the normaliser cannot map.
   */
  lemma ParseSampleFail(sample: Sample, recognizer: String -> seq<NamedEntity>,
                        normalizer: String -> Option<NormalizationResult>)
    ensures ParsedSampleOf(sample, recognizer, normalizer).Failure? <==>
      SourceName(sample.metadata).Failure? || GetAge(sample.characteristics).Failure?
      || Unmapped(sample, "tissue", normalizer) || Unmapped(sample, "cell type", normalizer)
      || Unmapped(sample, "disease", normalizer)
    ensures SourceName(sample.metadata).Failure? ==>
      ParsedSampleOf(sample, recognizer, normalizer) == Failure(ParseError.IndexError)
  {
    if SourceName(sample.metadata).Success? {
      FieldsFail(sample, Results(recognizer(SourceName(sample.metadata).value), normalizer), normalizer);
    }
  }

  /**
   * A parsed sample has the sample's accession, the first source name ("" when
   * there is none), and the four fields in order, each read from the
   * annotations of that source name; disease is read from the
   * "healthy or disease" annotations.
   */
  lemma ParseSampleShape(sample: Sample, recognizer: String -> seq<NamedEntity>,
                         normalizer: String -> Option<NormalizationResult>)
    requires ParsedSampleOf(sample, recognizer, normalizer).Success?
    ensures var p := ParsedSampleOf(sample, recognizer, normalizer).value;
      var anns := Results(recognizer(p.sourceName), normalizer);
      p.id == sample.accession
      && (Get(sample.metadata, "source_name_ch1").None? ==> p.sourceName == "")
      && (Get(sample.metadata, "source_name_ch1").Some? ==> p.sourceName == Get(sample.metadata, "source_name_ch1").value[0])
      && |p.fields| == 4
      && Success(p.fields[0]) == AgeField(sample, anns)
      && Success(p.fields[1]) == ParsedFieldOf("tissue", "tissue", sample, anns, normalizer)
      && Success(p.fields[2]) == ParsedFieldOf("cell type", "cell type", sample, anns, normalizer)
      && Success(p.fields[3]) == ParsedFieldOf("disease", "healthy or disease", sample, anns, normalizer)
  {
  }
}
