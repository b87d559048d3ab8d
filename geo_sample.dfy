/**
 * A GEO sample (src/model/geo_sample.py): its characteristics parsed from
 * `key: value` strings, the fields read from the metadata, and the
 * sample's equality and hash.
 */
module GeoSamples {
  import opened Wrappers
  import opened Strings
  import opened PyDict
  import opened GeoMetadata

  datatype Sample = Sample(
    metadata: Metadata,
    characteristics: Dict<String, String>,
    title: String,
    accession: String,
    organism: String,
    description: String,
    dataProcessing: seq<String>,
    treatmentProtocol: String,
    sampleType: String)

  /** The separator between a characteristic's name and its value. */
  const Separator: String := ": "

  /** `key, value = c.split(": ", 1)` for a characteristic that has the separator. */
  function KeyValue(c: String): (String, String)
    requires Contains(c, Separator)
  {
    var i := Find(c, Separator).value;
    (c[..i], c[i + 2..])
  }

  /**
   * The split happens at the first separator: the pieces glue back to the
   * characteristic, the name has no separator, and the value may have more.
   */
  lemma KeyValueSplit(c: String)
    requires Contains(c, Separator)
    ensures KeyValue(c).0 + Separator + KeyValue(c).1 == c
    ensures !Contains(KeyValue(c).0, Separator)
  {
    var i := Find(c, Separator).value;
    var key := c[..i];
    assert c[i..i + 2] == Separator;
    assert key + Separator + c[i + 2..] == c;
    forall j | 0 <= j <= |key| ensures !OccursAt(key, Separator, j) {
      if OccursAt(key, Separator, j) {
        assert key[j..j + 2] == c[j..j + 2];
        assert OccursAt(c, Separator, j);
      }
    }
  }

  /** The key/value pairs of well-formed characteristics, in list order. */
  function Pairs(cs: seq<String>): (r: seq<(String, String)>)
    requires WellFormed(cs)
    ensures |r| == |cs| && forall k :: 0 <= k < |cs| ==> r[k] == KeyValue(cs[k])
  {
    seq(|cs|, k requires 0 <= k < |cs| => KeyValue(cs[k]))
  }

  /** The entries assigned one after the other; the first malformed one is a ValueError. */
  function ParseAll(list: seq<String>): Result<Dict<String, String>, MetaError>
    decreases |list|
  {
    if |list| == 0 then Success([])
    else match ParseAll(list[..|list| - 1])
      case Failure(e) => Failure(e)
      case Success(d) =>
        var c := list[|list| - 1];
        if Contains(c, Separator) then Success(Set(d, KeyValue(c).0, KeyValue(c).1))
        else Failure(ValueError)
  }

  /**
   * `_parse_characteristics(characteristics)`: each entry is split at its
   * first separator and assigned in order; iterating over None is a TypeError.
   */
  function Characteristics(cs: Option<seq<String>>): Result<Dict<String, String>, MetaError> {
    if cs.None? then Failure(TypeError) else ParseAll(cs.value)
  }

  /** The loop of `_parse_characteristics`. */
  method ParseCharacteristics(cs: Option<seq<String>>) returns (r: Result<Dict<String, String>, MetaError>)
    ensures r == Characteristics(cs)
  {
    if cs.None? {
      return Failure(TypeError);
    }
    var list := cs.value;
    var d: Dict<String, String> := [];
    var i := 0;
    while i < |list|
      invariant 0 <= i <= |list|
      invariant ParseAll(list[..i]) == Success(d)
    {
      var c := list[i];
      assert list[..i + 1][..i] == list[..i];
      var at := Find(c, Separator);
      if at.None? {
        assert ParseAll(list[..i + 1]) == Failure(ValueError);
        ParseAllFails(list, i + 1);
        return Failure(ValueError);
      }
      var key, value := c[..at.value], c[at.value + 2..];
      d := Set(d, key, value);
      i := i + 1;
    }
    assert list[..i] == list;
    return Success(d);
  }

  /** Once a prefix fails, the whole list fails the same way. */
  lemma {:induction false} ParseAllFails(list: seq<String>, n: nat)
    requires n <= |list| && ParseAll(list[..n]).Failure?
    ensures ParseAll(list) == ParseAll(list[..n])
    decreases |list| - n
  {
    if n < |list| {
      assert list[..n + 1][..n] == list[..n];
      ParseAllFails(list, n + 1);
    } else {
      assert list[..n] == list;
    }
  }

  /** Every entry has the separator. */
  predicate WellFormed(cs: seq<String>) {
    forall k :: 0 <= k < |cs| ==> Contains(cs[k], Separator)
  }

  /** A list is well formed when its front is and its last entry is. */
  lemma WellFormedSnoc(list: seq<String>)
    requires |list| > 0
    ensures WellFormed(list) <==>
      WellFormed(list[..|list| - 1]) && Contains(list[|list| - 1], Separator)
  {
    var pre := list[..|list| - 1];
    assert forall k :: 0 <= k < |pre| ==> pre[k] == list[k];
  }

  lemma PairsSnoc(list: seq<String>)
    requires |list| > 0 && WellFormed(list) && WellFormed(list[..|list| - 1])
    ensures Pairs(list) == Pairs(list[..|list| - 1]) + [KeyValue(list[|list| - 1])]
  {
  }

  /** Parsing succeeds exactly on well-formed entries, and then assigns their pairs in order. */
  lemma {:induction false} ParseAllPairs(list: seq<String>)
    ensures ParseAll(list).Success? <==> WellFormed(list)
    ensures ParseAll(list).Success? ==> ParseAll(list).value == SetAll([], Pairs(list))
    ensures ParseAll(list).Failure? ==> ParseAll(list).error == ValueError
    decreases |list|
  {
    if |list| > 0 {
      var pre := list[..|list| - 1];
      var c := list[|list| - 1];
      ParseAllPairs(pre);
      WellFormedSnoc(list);
      if ParseAll(list).Success? {
        PairsSnoc(list);
        SetAllSnoc([], Pairs(pre), KeyValue(c));
      }
    }
  }

  /** A missing or malformed entry is an error; otherwise there is a dictionary. */
  lemma CharacteristicsErrors(cs: Option<seq<String>>)
    ensures Characteristics(cs) == Failure(TypeError) <==> cs.None?
    ensures Characteristics(cs) == Failure(ValueError) <==>
      cs.Some? && exists k :: 0 <= k < |cs.value| && !Contains(cs.value[k], Separator)
    ensures Characteristics(cs).Success? ==> Characteristics(cs).value == SetAll([], Pairs(cs.value))
  {
    if cs.Some? {
      ParseAllPairs(cs.value);
    }
  }

  /**
   * Each name maps to the value of its last entry, names are distinct and
   * a name is present exactly when some entry has it.
   */
  lemma {:induction false} CharacteristicsLastWins(cs: seq<String>, key: String)
    requires WellFormed(cs)
    ensures Characteristics(Some(cs)).Success?
    ensures var d := Characteristics(Some(cs)).value;
      DistinctKeys(d)
      && Get(d, key) == LastValue(Pairs(cs), key)
      && (key in Keys(d) <==> exists k :: 0 <= k < |cs| && KeyValue(cs[k]).0 == key)
  {
    ParseAllPairs(cs);
    var ps := Pairs(cs);
    SetAllLastWins([], ps, key);
    SetAllKeys([], ps, key);
    if key in Keys(SetAll([], ps)) {
      var i :| 0 <= i < |ps| && ps[i].0 == key;
      assert KeyValue(cs[i]).0 == key;
    }
  }

  /** A later entry with the same name overwrites the earlier one. */
  lemma {:induction false} LaterEntryOverwrites(cs: seq<String>, c: String)
    requires WellFormed(cs) && Contains(c, Separator)
    ensures Characteristics(Some(cs + [c])).Success?
    ensures Get(Characteristics(Some(cs + [c])).value, KeyValue(c).0) == Some(KeyValue(c).1)
  {
    var cs' := cs + [c];
    assert WellFormed(cs') by {
      forall k | 0 <= k < |cs'| ensures Contains(cs'[k], Separator) {
        if k < |cs| {
          assert cs'[k] == cs[k];
        }
      }
    }
    CharacteristicsLastWins(cs', KeyValue(c).0);
    assert Pairs(cs')[|cs'| - 1] == KeyValue(c);
  }

  /** `GEOSample(metadata)`: the characteristics first, then the other fields in order. */
  function FromMetadata(m: Metadata): (r: Result<Sample, MetaError>) {
    var chars := Characteristics(Get(m, "characteristics_ch1"));
    if chars.Failure? then Failure(chars.error)
    else
      var title := GetFirst(m, "title");
      if title.Failure? then Failure(title.error)
      else
        var accession := GetFirst(m, "geo_accession");
        if accession.Failure? then Failure(accession.error)
        else
          var organism := GetFirst(m, "organism_ch1");
          if organism.Failure? then Failure(organism.error)
          else
            var sampleType := GetFirst(m, "type");
            if sampleType.Failure? then Failure(sampleType.error)
            else Success(Sample(m, chars.value, title.value, accession.value, organism.value,
              Join(GetOrDefault(m, "description", []), " "),
              GetOrDefault(m, "data_processing", []),
              Join(GetOrDefault(m, "treatment_protocol_ch1", []), " "),
              sampleType.value))
  }

  /**
   * A sample is built exactly when the characteristics parse and title,
   * accession, organism and type are present and non-empty; the optional
   * text fields are then their entries joined by spaces, "" when absent.
   */
  lemma FromMetadataFields(m: Metadata)
    ensures FromMetadata(m).Success? <==>
      Characteristics(Get(m, "characteristics_ch1")).Success?
      && GetFirst(m, "title").Success? && GetFirst(m, "geo_accession").Success?
      && GetFirst(m, "organism_ch1").Success? && GetFirst(m, "type").Success?
    ensures FromMetadata(m).Success? ==>
      var s := FromMetadata(m).value;
      s.characteristics == Characteristics(Get(m, "characteristics_ch1")).value
      && s.title == Get(m, "title").value[0] && s.accession == Get(m, "geo_accession").value[0]
      && (Get(m, "description").None? ==> s.description == "")
      && (Get(m, "treatment_protocol_ch1").None? ==> s.treatmentProtocol == "")
      && (Get(m, "data_processing").None? ==> s.dataProcessing == [])
  {
  }

  /** A missing characteristics list is reported before anything else. */
  lemma MissingCharacteristicsFirst(m: Metadata)
    requires Get(m, "characteristics_ch1").None?
    ensures FromMetadata(m) == Failure(TypeError)
  {
  }

  /** `__eq__`: samples are equal when their accessions are. */
  predicate SameSample(a: Sample, b: Sample) {
    a.accession == b.accession
  }

  /** `__hash__` as written, with Python's string hash `h`: it mixes in the title. */
  function HashAsWritten(s: Sample, h: String -> int): int {
    h(s.accession + s.title)
  }

  /**
   * Two samples with the same accession and different titles are equal but
   * get different hashes under a string hash that tells accession + title apart.
   */
  lemma EqualSamplesHashApart(a: Sample, b: Sample, h: String -> int)
    requires a.accession == b.accession == "GSM1" && a.title == "a" && b.title == "bb"
    requires forall x :: h(x) == |x|
    ensures SameSample(a, b) && HashAsWritten(a, h) != HashAsWritten(b, h)
  {
  }

  /** The hash that agrees with `__eq__`: of the accession only. */
  function SampleHash(s: Sample, h: String -> int): int {
    h(s.accession)
  }

  /** Equal samples hash alike, whatever the string hash. */
  lemma EqualSamplesHashAlike(a: Sample, b: Sample, h: String -> int)
    requires SameSample(a, b)
    ensures SampleHash(a, h) == SampleHash(b, h)
  {
  }
}
