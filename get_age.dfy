/**
 * The age of a sample (src/parsing/age/get_age.py): the first
 * characteristic whose key names an age, its unit read off the key, and
 * the value parsed by `extract_age`.
 */
module AgeOfSample {
  import opened Wrappers
  import opened Strings
  import opened Scan
  import opened PyDict
  import opened AgeExtraction

  /** `normalize_to_years` called on the None that `extract_age` returned. */
  datatype AgeError = TypeError

  /** `is_age_key(key)`: "age" is a word of the key and "at" occurs nowhere in it. */
  predicate IsAgeKey(key: String) {
    ("age" in Split(key, " ") || "age" in Split(key, "_")) && !Contains(key, "at")
  }

  /** An age key mentions "age" and never "at". */
  lemma {:induction false} AgeKeyMentionsAge(key: String)
    requires IsAgeKey(key)
    ensures Contains(key, "age") && !Contains(key, "at")
  {
    SplitPiecesOccur(key, " ");
    SplitPiecesOccur(key, "_");
  }

  /** The characters `[\s_]`. */
  const KeySeparators: set<char> := PyWhitespace + {'_'}

  /** `[\s_]+\(?(year|yr|month|mo|week|wk|w|day|d)s?` at `i`: the unit after the separators. */
  function KeyUnitAt(key: String, i: nat): (r: Option<String>)
    ensures r.Some? ==> i < |key| && key[i] in KeySeparators && r.value in RegexUnits
  {
    if i < |key| && key[i] in KeySeparators then
      var p := RunEnd(key, i, KeySeparators);
      var q := if p < |key| && key[p] == '(' then p + 1 else p;
      AltAt(key, q, RegexUnits)
    else None
  }

  /** `get_age_unit(text)`: the unit of the leftmost match, case-sensitive. */
  function GetAgeUnit(text: String): (r: Option<String>)
    ensures r.Some? ==> r.value in RegexUnits
    ensures r.None? <==> forall i :: 0 <= i < |text| ==> KeyUnitAt(text, i).None?
    ensures r.Some? ==> exists i :: (0 <= i < |text| && KeyUnitAt(text, i) == r
      && forall j :: 0 <= j < i ==> KeyUnitAt(text, j).None?)
  {
    var m := (i: nat) => KeyUnitAt(text, i);
    assert forall j :: 0 <= j < |text| ==> m(j) == KeyUnitAt(text, j);
    match Search(|text|, 0, m)
    case None => None
    case Some((_, u)) => Some(u)
  }

  /** A key without a space or an underscore has no unit. */
  lemma {:induction false} NoSeparatorNoUnit(text: String)
    requires forall c :: c in text ==> c !in KeySeparators
    ensures GetAgeUnit(text).None?
  {
    forall i | 0 <= i < |text| ensures KeyUnitAt(text, i).None? {
      assert text[i] in text;
    }
  }

  /** `filter(is_age_key, keys)`. */
  function AgeKeys(keys: seq<String>): (r: seq<String>)
    ensures forall k :: k in r <==> k in keys && IsAgeKey(k)
  {
    if |keys| == 0 then []
    else if IsAgeKey(keys[0]) then [keys[0]] + AgeKeys(keys[1..])
    else AgeKeys(keys[1..])
  }

  /** The filter's first key is the first age key. */
  lemma {:induction false} AgeKeysHead(keys: seq<String>, i: nat)
    requires i < |keys| && IsAgeKey(keys[i])
    requires forall j :: 0 <= j < i ==> !IsAgeKey(keys[j])
    ensures |AgeKeys(keys)| > 0 && AgeKeys(keys)[0] == keys[i]
    decreases i
  {
    if i > 0 {
      assert forall j :: 0 <= j < i - 1 ==> keys[1..][j] == keys[j + 1];
      AgeKeysHead(keys[1..], i - 1);
    }
  }

  /** The age read from the value `ageStr` of the age key `key`. */
  function AgeFor(key: String, ageStr: String): (r: Result<Option<Age>, AgeError>)
    ensures r.Failure? <==> GetAgeUnit(key).Some? && ExtractAge(ageStr, false).None?
  {
    var unit := GetAgeUnit(key);
    var age := ExtractAge(ageStr, unit.None?);
    if unit.None? then Success(age)
    else
      CapturedUnitsHandled(unit.value);
      match age
      case None => Failure(TypeError)
      case Some(Range(lo, hi)) =>
        Success(Some(Range(NormalizeToYears(lo, unit.value).value, NormalizeToYears(hi, unit.value).value)))
      case Some(Value(x)) => Success(Some(Value(NormalizeToYears(x, unit.value).value)))
  }

  /** `get_age(sample)` on the sample's characteristics. */
  function GetAge(characteristics: Dict<String, String>): Result<Option<Age>, AgeError> {
    var ageKeys := AgeKeys(Keys(characteristics));
    if |ageKeys| == 0 then Success(None)
    else
      var key := ageKeys[0];
      AgeFor(key, Get(characteristics, key).value)
  }

  /** Without an age key the age is not available. */
  lemma {:induction false} NoAgeKeyNoAge(characteristics: Dict<String, String>)
    requires forall i :: 0 <= i < |characteristics| ==> !IsAgeKey(characteristics[i].0)
    ensures GetAge(characteristics) == Success(None)
  {
  }

  /** The age comes from the first age key in insertion order; later age keys are ignored. */
  lemma {:induction false} FirstAgeKeyUsed(characteristics: Dict<String, String>, i: nat)
    requires i < |characteristics| && IsAgeKey(characteristics[i].0)
    requires forall j :: 0 <= j < i ==> !IsAgeKey(characteristics[j].0)
    ensures GetAge(characteristics) == AgeFor(characteristics[i].0, characteristics[i].1)
  {
    var keys := Keys(characteristics);
    AgeKeysHead(keys, i);
    FirstPairFound(characteristics, i);
  }

  /** `d[k]` is the value of the first pair with key `k`. */
  lemma {:induction false} FirstPairFound(d: Dict<String, String>, i: nat)
    requires i < |d| && forall j :: 0 <= j < i ==> d[j].0 != d[i].0
    ensures Get(d, d[i].0) == Some(d[i].1)
    decreases i
  {
    if i > 0 {
      FirstPairFound(d[1..], i - 1);
    }
  }

  /** A key without a unit leaves the value's own unit in charge: `extract_age` normalises. */
  lemma {:induction false} UnitlessKeyNormalizes(key: String, ageStr: String)
    requires GetAgeUnit(key).None?
    ensures AgeFor(key, ageStr) == Success(ExtractAge(ageStr, true))
  {
  }

  /**
   * A key with a unit overrides the value's: the value is read as written
   * (for text such as "18 months" the number alone) and converted by the
   * key's unit.
   */
  lemma {:induction false} KeyUnitAppliedToValue(key: String, ageStr: String, u: String, x: real)
    requires GetAgeUnit(key) == Some(u) && ExtractAge(ageStr, false) == Some(Value(x))
    ensures NormalizeToYears(x, u).Some?
    ensures AgeFor(key, ageStr) == Success(Some(Value(NormalizeToYears(x, u).value)))
  {
    CapturedUnitsHandled(u);
  }

  /** The key's unit converts both ends of a range. */
  lemma {:induction false} KeyUnitAppliedToRange(key: String, ageStr: String, u: String, lo: real, hi: real)
    requires GetAgeUnit(key) == Some(u) && ExtractAge(ageStr, false) == Some(Range(lo, hi))
    ensures NormalizeToYears(lo, u).Some? && NormalizeToYears(hi, u).Some?
    ensures AgeFor(key, ageStr) == Success(Some(Range(NormalizeToYears(lo, u).value, NormalizeToYears(hi, u).value)))
  {
    CapturedUnitsHandled(u);
  }

  // ---------------------------------------------------------------------
  // Examples of the repository's tests

  /** Positions without a separator never start a unit. */
  lemma NoSeparatorBetween(key: String, a: nat, b: nat)
    requires a <= b <= |key|
    requires forall c :: c in key[a..b] ==> c !in KeySeparators
    ensures forall j :: a <= j < b ==> KeyUnitAt(key, j).None?
  {
    forall j | a <= j < b ensures KeyUnitAt(key, j).None? {
      assert key[j] == key[a..b][j - a];
    }
  }

  /** The unit of the first position where one starts is the key's unit. */
  lemma {:induction false} FirstUnitAt(key: String, p: nat)
    requires p < |key| && KeyUnitAt(key, p).Some?
    requires forall j :: 0 <= j < p ==> KeyUnitAt(key, j).None?
    ensures GetAgeUnit(key) == KeyUnitAt(key, p)
  {
    var m := (i: nat) => KeyUnitAt(key, i);
    SearchFrom(|key|, 0, p, m);
  }

  /** `get_age_unit("age (yrs)")` is "yr": the alternative "year" is tried first but does not fit. */
  lemma UnitOfAgeYrs(key: String)
    requires key == "age (yrs)"
    ensures GetAgeUnit(key) == Some("yr")
  {
    NoSeparatorBetween(key, 0, 3);
    YrsAt(key);
    FirstUnitAt(key, 3);
  }

  lemma YrsAt(key: String)
    requires key == "age (yrs)"
    ensures KeyUnitAt(key, 3) == Some("yr")
  {
    RunEndAt(key, 3, 4, KeySeparators);
    YrAlternative(key);
  }

  lemma YrAlternative(key: String)
    requires key == "age (yrs)"
    ensures AltAt(key, 5, RegexUnits) == Some("yr")
  {
    assert key[5..7] == "yr" && key[5..9] == "yrs)";
    AltAtFirst(key, 5, RegexUnits, 1);
  }

  /** `get_age_unit("age_days")` is "day". */
  lemma UnitOfAgeDays(key: String)
    requires key == "age_days"
    ensures GetAgeUnit(key) == Some("day")
  {
    NoSeparatorBetween(key, 0, 3);
    DaysAt(key);
    FirstUnitAt(key, 3);
  }

  lemma DaysAt(key: String)
    requires key == "age_days"
    ensures KeyUnitAt(key, 3) == Some("day")
  {
    RunEndAt(key, 3, 4, KeySeparators);
    AltAtFirst(key, 4, RegexUnits, 7);
  }

  /** `get_age_unit("donor_age")` is None: "age" is no unit. */
  lemma UnitOfDonorAge(key: String)
    requires key == "donor_age"
    ensures GetAgeUnit(key).None?
  {
    NoSeparatorBetween(key, 0, 5);
    NoSeparatorBetween(key, 6, 9);
    DonorAgeSeparator(key);
    assert forall j :: 0 <= j < |key| ==> KeyUnitAt(key, j).None?;
  }

  lemma DonorAgeSeparator(key: String)
    requires key == "donor_age"
    ensures KeyUnitAt(key, 5).None?
  {
    RunEndAt(key, 5, 6, KeySeparators);
    NoUnitStartsWith(key, 6);
  }

  /** Every unit starts with 'y', 'm', 'w' or 'd'. */
  lemma UnitInitials()
    ensures forall a :: a in RegexUnits ==> |a| > 0 && a[0] in {'y', 'm', 'w', 'd'}
  {
  }

  /** No unit is read at a character that no unit starts with. */
  lemma NoUnitStartsWith(key: String, i: nat)
    requires i < |key| && key[i] !in {'y', 'm', 'w', 'd'}
    ensures AltAt(key, i, RegexUnits).None?
  {
    UnitInitials();
    AltAtNoFirstChar(key, i, RegexUnits);
  }

  /** `get_age_unit("age")` is None. */
  lemma UnitOfAge(key: String)
    requires key == "age"
    ensures GetAgeUnit(key).None?
  {
    NoSeparatorNoUnit(key);
  }

  /** `is_age_key` on "donor_age" holds; on "age at diagnosis" it fails. */
  lemma AgeKeyExamples(a: String, b: String)
    requires a == "donor_age" && b == "age at diagnosis"
    ensures IsAgeKey(a) && !IsAgeKey(b)
  {
    DonorAgeKey(a);
    assert OccursAt(b, "at", 4);
  }

  lemma DonorAgeKey(a: String)
    requires a == "donor_age"
    ensures IsAgeKey(a)
  {
    SplitTwo("donor", "_", "age");
    assert a == "donor" + "_" + "age";
    LacksCharNotContains(a, "at", 1);
  }

  /** `is_age_key("age_days")` holds. */
  lemma AgeDaysKey(a: String)
    requires a == "age_days"
    ensures IsAgeKey(a)
  {
    SplitTwo("age", "_", "days");
    assert a == "age" + "_" + "days";
    LacksCharNotContains(a, "at", 1);
  }

  /** A one-entry sample whose key carries a unit and whose value is an integer. */
  lemma {:induction false} KeyUnitPlainValue(key: String, d: String, u: String)
    requires IsAgeKey(key) && GetAgeUnit(key) == Some(u) && |d| > 0 && AllDigits(d)
    ensures NormalizeToYears(NatValue(d) as real, u).Some?
    ensures GetAge([(key, d)]) == Success(Some(Value(NormalizeToYears(NatValue(d) as real, u).value)))
  {
    FirstAgeKeyUsed([(key, d)], 0);
    PlainInteger(d, false);
    KeyUnitAppliedToValue(key, d, u, NatValue(d) as real);
  }

  /** The sample with "donor_age: 18 months" is one and a half years old. */
  lemma DonorAgeEighteenMonths(key: String, d: String, w: String)
    requires key == "donor_age" && d == "18" && w == "months"
    ensures GetAge([(key, d + " " + w)]) == Success(Some(Value(1.5)))
  {
    AgeKeyExamples(key, "age at diagnosis");
    FirstAgeKeyUsed([(key, d + " " + w)], 0);
    UnitOfDonorAge(key);
    UnitlessKeyNormalizes(key, d + " " + w);
    EighteenMonths(d, w);
  }
}
